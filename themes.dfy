/** The app's colour themes (`Themes`): each theme names a style, a night
    mode and its light and dark display names, and derives from its style
    the nine colours of its light and dark palettes. Colours are 32-bit ARGB
    values read as unsigned numbers (alpha in the top byte); `Color.parseColor`
    of a six-digit "#RRGGBB" text is the opaque colour `Opaque(0xRRGGBB)`.
    String resources are modelled by their resource names. */
module Themes {
  import opened Text
  import opened Numbers

  // AppCompatDelegate night modes.
  const MODE_NIGHT_FOLLOW_SYSTEM: int := -1
  const MODE_NIGHT_NO: int := 1
  const MODE_NIGHT_YES: int := 2

  /** The theme styles. */
  datatype Style = Monet | Tachiyomi | MidnightDusk | Strawberries | Tako | YinYang | FlatLime
                 | Yotsuba | AllBlue

  datatype Theme = MONET | DEFAULT | SPRING_AND_DUSK | STRAWBERRIES | TAKO | YIN_AND_YANG | LIME
                 | YOTSUBA | CLASSIC_BLUE

  /** A palette, in the declaration order of the `Colors` fields. */
  datatype Colors = Colors(primaryText: nat, secondaryText: nat, background: nat,
                           colorSecondary: nat, appBar: nat, appBarText: nat, bottomBar: nat,
                           inactiveTab: nat, activeTab: nat)

  const ALPHA_UNIT: nat := 0x1000000

  predicate IsColor(c: nat)
  {
    c < 0x1_0000_0000
  }

  /** A "#RRGGBB" colour: fully opaque. */
  function Opaque(rgb: nat): (c: nat)
    requires rgb < ALPHA_UNIT
    ensures IsColor(c) && Alpha(c) == 0xFF && Rgb(c) == rgb
  {
    0xFF * ALPHA_UNIT + rgb
  }

  function Alpha(c: nat): nat
  {
    c / ALPHA_UNIT
  }

  function Rgb(c: nat): nat
  {
    c % ALPHA_UNIT
  }

  /** `ColorUtils.setAlphaComponent`: the colour with its alpha byte replaced. */
  function SetAlphaComponent(c: nat, alpha: nat): (r: nat)
    requires alpha < 256
    ensures IsColor(r) && Alpha(r) == alpha && Rgb(r) == Rgb(c)
  {
    alpha * ALPHA_UNIT + Rgb(c)
  }

  /** `(0.54f * 255f).roundToInt()`. */
  const SECONDARY_ALPHA: nat := 138

  /** The secondary-text alpha is 54% of full opacity, rounded. */
  lemma SecondaryAlphaRounds()
    ensures RoundHalfUp(0.54 * 255.0) == SECONDARY_ALPHA
  {
    var r := RoundHalfUp(0.54 * 255.0);
    assert r as real - 0.5 <= 137.7 < r as real + 0.5;
  }

  /** The style resource of a theme: the only style fixed to night is the
      flat-lime one and the only style fixed to day is Yotsuba's. */
  function StyleRes(t: Theme): (s: Style)
    ensures s == FlatLime <==> NightMode(t) == MODE_NIGHT_YES
    ensures s == Yotsuba <==> NightMode(t) == MODE_NIGHT_NO
  {
    match t
    case MONET => Monet
    case DEFAULT => Tachiyomi
    case SPRING_AND_DUSK => MidnightDusk
    case STRAWBERRIES => Strawberries
    case TAKO => Tako
    case YIN_AND_YANG => YinYang
    case LIME => FlatLime
    case YOTSUBA => Yotsuba
    case CLASSIC_BLUE => AllBlue
  }

  function NightMode(t: Theme): (m: int)
    ensures m == MODE_NIGHT_YES <==> t == LIME
    ensures m == MODE_NIGHT_NO <==> t == YOTSUBA
    ensures m == MODE_NIGHT_FOLLOW_SYSTEM <==> t != LIME && t != YOTSUBA
  {
    match t
    case LIME => MODE_NIGHT_YES
    case YOTSUBA => MODE_NIGHT_NO
    case _ => MODE_NIGHT_FOLLOW_SYSTEM
  }

  function NameRes(t: Theme): string
  {
    match t
    case MONET => "a_brighter_you"
    case DEFAULT => "white_theme"
    case SPRING_AND_DUSK => "spring_blossom"
    case STRAWBERRIES => "strawberry_daiquiri"
    case TAKO => "tako"
    case YIN_AND_YANG => "yang"
    case LIME => "flat_lime"
    case YOTSUBA => "yotsuba"
    case CLASSIC_BLUE => "light_blue"
  }

  function AltNameRes(t: Theme): Option<string>
  {
    match t
    case MONET => Some("a_calmer_you")
    case DEFAULT => Some("dark")
    case SPRING_AND_DUSK => Some("midnight_dusk")
    case STRAWBERRIES => Some("chocolate_strawberries")
    case YIN_AND_YANG => Some("yin")
    case CLASSIC_BLUE => Some("dark_blue")
    case _ => None
  }

  /** `isDarkTheme`: only the flat-lime theme is always dark. */
  predicate IsDarkTheme(t: Theme)
    ensures IsDarkTheme(t) <==> t == LIME
  {
    NightMode(t) == MODE_NIGHT_YES
  }

  /** `followsSystem`: every theme with a separate dark-variant name
      follows the system, and the two fixed themes do not. */
  predicate FollowsSystem(t: Theme)
    ensures AltNameRes(t).Some? ==> FollowsSystem(t)
    ensures t == LIME || t == YOTSUBA ==> !FollowsSystem(t)
  {
    NightMode(t) == MODE_NIGHT_FOLLOW_SYSTEM
  }

  /** A theme is dark, light or follows the system, never two of these. */
  lemma NightModeKinds(t: Theme)
    ensures !(IsDarkTheme(t) && FollowsSystem(t))
    ensures IsDarkTheme(t) || FollowsSystem(t) || NightMode(t) == MODE_NIGHT_NO
  {
  }

  /** `darkNameRes`: the alternative name when the theme has one. */
  function DarkNameRes(t: Theme): (r: string)
    ensures AltNameRes(t).Some? ==> r == AltNameRes(t).value
    ensures AltNameRes(t).None? ==> r == NameRes(t)
  {
    match AltNameRes(t)
    case Some(alt) => alt
    case None => NameRes(t)
  }

  // ------------------------------------------------ colours of a style

  /** Light primary text: 87% opaque. */
  function LightPrimaryText(s: Style): (c: nat)
    ensures IsColor(c) && Alpha(c) == 0xDE
  {
    if s == MidnightDusk then 0xDE240728 else 0xDE000000
  }

  /** Dark primary text: opaque white. */
  function DarkPrimaryText(s: Style): (c: nat)
    ensures IsColor(c) && Alpha(c) == 0xFF && Rgb(c) == 0xFFFFFF
  {
    0xFFFFFFFF
  }

  function LightSecondaryText(s: Style): (c: nat)
    ensures Alpha(c) == SECONDARY_ALPHA && Rgb(c) == Rgb(LightPrimaryText(s))
  {
    SetAlphaComponent(LightPrimaryText(s), SECONDARY_ALPHA)
  }

  function DarkSecondaryText(s: Style): (c: nat)
    ensures Alpha(c) == SECONDARY_ALPHA && Rgb(c) == Rgb(DarkPrimaryText(s))
  {
    SetAlphaComponent(DarkPrimaryText(s), SECONDARY_ALPHA)
  }

  /** Light background: opaque, red channel at least 0xF2. */
  function LightBackground(s: Style): (c: nat)
    ensures IsColor(c) && Alpha(c) == 0xFF && Rgb(c) / 0x10000 >= 0xF2
  {
    match s
    case Tako => Opaque(0xF2EDF7)
    case MidnightDusk => Opaque(0xF6F0F8)
    case _ => Opaque(0xFAFAFA)
  }

  /** Dark background: opaque, red channel at most 0x21. */
  function DarkBackground(s: Style): (c: nat)
    ensures IsColor(c) && Alpha(c) == 0xFF && Rgb(c) / 0x10000 <= 0x21
  {
    match s
    case Tako => Opaque(0x21212E)
    case Strawberries => Opaque(0x1A1716)
    case MidnightDusk => Opaque(0x16151D)
    case FlatLime => Opaque(0x202125)
    case _ => Opaque(0x1C1C1D)
  }

  /** Light accent: opaque. */
  function LightAccent(s: Style): (c: nat)
    ensures IsColor(c) && Alpha(c) == 0xFF
  {
    match s
    case Tako => Opaque(0x66577E)
    case YinYang => Opaque(0x000000)
    case MidnightDusk => Opaque(0xC43C97)
    case Strawberries => Opaque(0xED4A65)
    case Yotsuba => Opaque(0xDC6D3D)
    case _ => Opaque(0x2979FF)
  }

  /** Dark accent: opaque. */
  function DarkAccent(s: Style): (c: nat)
    ensures IsColor(c) && Alpha(c) == 0xFF
  {
    match s
    case Tako => Opaque(0xF3B375)
    case YinYang => Opaque(0xFFFFFF)
    case MidnightDusk => Opaque(0xF02475)
    case Strawberries => Opaque(0xAA2200)
    case FlatLime => Opaque(0x4AF88A)
    case _ => Opaque(0x3399FF)
  }

  /** Light app bar: opaque. */
  function LightAppBar(s: Style): (c: nat)
    ensures IsColor(c) && Alpha(c) == 0xFF
  {
    if s == AllBlue then Opaque(0x54759E) else LightBackground(s)
  }

  /** Dark app bar: opaque. */
  function DarkAppBar(s: Style): (c: nat)
    ensures IsColor(c) && Alpha(c) == 0xFF
  {
    if s == AllBlue then Opaque(0x54759E) else DarkBackground(s)
  }

  /** Light app-bar text: at least 87% opaque. */
  function LightAppBarText(s: Style): (c: nat)
    ensures IsColor(c) && Alpha(c) >= 0xDE
  {
    match s
    case Tako => Opaque(0x221B28)
    case AllBlue => Opaque(0xFFFFFF)
    case MidnightDusk => 0xDE4C0D4B
    case _ => LightPrimaryText(s)
  }

  /** Dark app-bar text: opaque. */
  function DarkAppBarText(s: Style): (c: nat)
    ensures IsColor(c) && Alpha(c) == 0xFF
  {
    match s
    case Tako => Opaque(0xF4ECE5)
    case AllBlue => Opaque(0xFFFFFF)
    case _ => DarkPrimaryText(s)
  }

  /** Light bottom bar: opaque. */
  function LightBottomBar(s: Style): (c: nat)
    ensures IsColor(c) && Alpha(c) == 0xFF
  {
    match s
    case Tako => Opaque(0xF7F5FF)
    case AllBlue => Opaque(0x54759E)
    case MidnightDusk => Opaque(0xEFE3F3)
    case _ => Opaque(0xFFFFFF)
  }

  /** Dark bottom bar: opaque. */
  function DarkBottomBar(s: Style): (c: nat)
    ensures IsColor(c) && Alpha(c) == 0xFF
  {
    match s
    case Tako => Opaque(0x2A2A3C)
    case Strawberries => Opaque(0x211B19)
    case AllBlue => Opaque(0x54759E)
    case MidnightDusk => Opaque(0x201F27)
    case FlatLime => Opaque(0x282A2E)
    case _ => Opaque(0x212121)
  }

  /** Light inactive tab: translucent, at least half opaque. */
  function LightInactiveTab(s: Style): (c: nat)
    ensures IsColor(c) && 0x80 <= Alpha(c) < 0xFF
  {
    match s
    case Tako => 0xC2221B28
    case AllBlue => 0x80FFFFFF
    case _ => 0xC2424242
  }

  /** Dark inactive tab: translucent, at least half opaque. */
  function DarkInactiveTab(s: Style): (c: nat)
    ensures IsColor(c) && 0x80 <= Alpha(c) < 0xFF
  {
    match s
    case Tako => 0xC2F4ECE5
    case AllBlue => 0x80FFFFFF
    case _ => 0xC2FFFFFF
  }

  /** Light active tab: opaque, so it stands out from the inactive tabs. */
  function LightActiveTab(s: Style): (c: nat)
    ensures IsColor(c) && Alpha(c) == 0xFF
  {
    if s == AllBlue then LightAppBarText(s) else LightAccent(s)
  }

  /** Dark active tab: opaque, so it stands out from the inactive tabs. */
  function DarkActiveTab(s: Style): (c: nat)
    ensures IsColor(c) && Alpha(c) == 0xFF
  {
    if s == AllBlue then DarkAppBarText(s) else DarkAccent(s)
  }

  /** `lightColors`. */
  function LightColors(t: Theme): (c: Colors)
    ensures c.background == LightBackground(StyleRes(t))
    ensures c.primaryText == LightPrimaryText(StyleRes(t))
  {
    var s := StyleRes(t);
    Colors(LightPrimaryText(s), LightSecondaryText(s), LightBackground(s), LightAccent(s),
           LightAppBar(s), LightAppBarText(s), LightBottomBar(s), LightInactiveTab(s),
           LightActiveTab(s))
  }

  /** `darkColors`. */
  function DarkColors(t: Theme): (c: Colors)
    ensures c.background == DarkBackground(StyleRes(t))
    ensures c.primaryText == DarkPrimaryText(StyleRes(t))
  {
    var s := StyleRes(t);
    Colors(DarkPrimaryText(s), DarkSecondaryText(s), DarkBackground(s), DarkAccent(s),
           DarkAppBar(s), DarkAppBarText(s), DarkBottomBar(s), DarkInactiveTab(s),
           DarkActiveTab(s))
  }

  /** The light and dark palettes of a theme always differ: their
      backgrounds do. */
  lemma PalettesDiffer(t: Theme)
    ensures LightColors(t) != DarkColors(t)
  {
    var s := StyleRes(t);
    assert Rgb(LightBackground(s)) != Rgb(DarkBackground(s));
  }

  /** `getColors`: the theme's own night mode decides, and only a theme
      that follows the system looks at `mode`. */
  function GetColors(t: Theme, mode: int): (c: Colors)
    ensures c.background == LightBackground(StyleRes(t)) || c.background == DarkBackground(StyleRes(t))
    ensures IsColor(c.activeTab) && IsColor(c.inactiveTab) && Alpha(c.inactiveTab) < Alpha(c.activeTab)
  {
    if NightMode(t) == MODE_NIGHT_YES then DarkColors(t)
    else if NightMode(t) == MODE_NIGHT_NO then LightColors(t)
    else if NightMode(t) == MODE_NIGHT_FOLLOW_SYSTEM then
      (if mode == MODE_NIGHT_YES then DarkColors(t) else LightColors(t))
    else LightColors(t)
  }

  /** A dark theme is dark and a light theme light whatever the mode; a
      theme that follows the system is dark exactly under `MODE_NIGHT_YES`. */
  lemma {:induction false} GetColorsByMode(t: Theme, mode: int)
    ensures IsDarkTheme(t) ==> GetColors(t, mode) == DarkColors(t)
    ensures NightMode(t) == MODE_NIGHT_NO ==> GetColors(t, mode) == LightColors(t)
    ensures FollowsSystem(t) ==> (GetColors(t, mode) == DarkColors(t) <==> mode == MODE_NIGHT_YES)
    ensures GetColors(t, mode) == DarkColors(t) || GetColors(t, mode) == LightColors(t)
  {
    PalettesDiffer(t);
  }

  /** Every palette: secondary text is the primary text at alpha 138, the
      app bar is the background except for the all-blue style, and the
      active tab is the app-bar text for the all-blue style and the accent
      otherwise. */
  lemma PaletteRules(t: Theme, mode: int)
    ensures var c := GetColors(t, mode);
      Alpha(c.secondaryText) == SECONDARY_ALPHA && Rgb(c.secondaryText) == Rgb(c.primaryText)
    ensures var c := GetColors(t, mode);
      StyleRes(t) != AllBlue ==> c.appBar == c.background
    ensures var c := GetColors(t, mode);
      StyleRes(t) == AllBlue ==> c.appBar == Opaque(0x54759E) && c.activeTab == c.appBarText
    ensures var c := GetColors(t, mode);
      StyleRes(t) != AllBlue ==> c.activeTab == c.colorSecondary
    ensures var c := GetColors(t, mode); IsColor(c.primaryText) && IsColor(c.background)
  {
  }

  /** The all-blue style's app bar never matches its background. */
  lemma AllBlueAppBar(t: Theme, mode: int)
    requires StyleRes(t) == AllBlue
    ensures GetColors(t, mode).appBar != GetColors(t, mode).background
  {
    assert Rgb(Opaque(0x54759E)) != Rgb(Opaque(0xFAFAFA));
    assert Rgb(Opaque(0x54759E)) != Rgb(Opaque(0x1C1C1D));
  }
}
