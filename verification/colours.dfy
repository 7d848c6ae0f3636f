/**
 * The colours the terrain is painted with: the season tint (`seasonColor`) and
 * the altitude palette of the textured mode (`displayColor`).
 *
 * OpenGL keeps one "current colour" that every vertex picks up; a routine that
 * sets no colour leaves the previous one in force. The model therefore writes
 * each colour routine as a function from the current colour to the new one.
 */
module Colours {
  /** An RGB triple with channels in [0, 1]. */
  datatype Colour = Colour(r: real, g: real, b: real)

  const White := Colour(1.0, 1.0, 1.0)
  const Green := Colour(0.0, 1.0, 0.0)
  const Blue := Colour(0.0, 0.0, 1.0)
  const SpringGreen := Colour(0.0, 0.7, 0.2)
  const SummerYellow := Colour(1.0, 1.0, 0.0)
  const AutumnOrange := Colour(0.86, 0.4, 0.0)
  const WinterGrey := Colour(0.8, 0.8, 0.8)

  /** The season names the server broadcasts, and the window's initial placeholder. */
  const Spring := "PRINTEMPS"
  const Summer := "ETE"
  const Autumn := "AUTOMNE"
  const Winter := "HIVER"
  const NoSeason := "NONE"

  /** The four broadcast names, in the server's order. */
  const SeasonNames: seq<string> := [Spring, Summer, Autumn, Winter]

  predicate IsSeasonName(s: string) {
    s in SeasonNames
  }

  /** The tint each season selects; every other string selects nothing. */
  const SeasonTint: map<string, Colour> :=
    map[Spring := SpringGreen, Summer := SummerYellow, Autumn := AutumnOrange, Winter := WinterGrey]

  /**
   * `seasonColor`: the spring test is a separate `if`, followed by an
   * `if`/`else if` chain for the other three names; a string matching none of
   * them leaves the current colour `cur` unchanged.
   */
  function SeasonColor(season: string, cur: Colour): (c: Colour)
    ensures season !in SeasonTint ==> c == cur
  {
    var afterSpring := if season == Spring then SpringGreen else cur;
    if season == Summer then SummerYellow
    else if season == Autumn then AutumnOrange
    else if season == Winter then WinterGrey
    else afterSpring
  }

  /** The two-`if` structure amounts to a table lookup that falls back to the current colour. */
  lemma SeasonColorIsLookup(season: string, cur: Colour)
    ensures SeasonColor(season, cur) == if season in SeasonTint then SeasonTint[season] else cur
  {
  }

  /** The tint keys are exactly the broadcast names, and they are pairwise different. */
  lemma SeasonTintKeys()
    ensures forall s :: s in SeasonTint <==> IsSeasonName(s)
    ensures forall i, k :: 0 <= i < k < |SeasonNames| ==> SeasonNames[i] != SeasonNames[k]
  {
    assert Spring != Summer && Spring != Autumn && Spring != Winter;
    assert Summer != Autumn && Summer != Winter && Autumn != Winter;
  }

  /** The four seasons give four different tints. */
  lemma SeasonTintsDistinct()
    ensures forall i, k :: 0 <= i < k < |SeasonNames| ==>
      SeasonTint[SeasonNames[i]] != SeasonTint[SeasonNames[k]]
  {
  }

  /** Applying the season tint twice is the same as once. */
  lemma SeasonColorIdempotent(season: string, cur: Colour)
    ensures SeasonColor(season, SeasonColor(season, cur)) == SeasonColor(season, cur)
  {
  }

  /** A season name fixes the colour whatever was current; any other string keeps it. */
  lemma SeasonColorForgetsCurrent(season: string, cur1: Colour, cur2: Colour)
    ensures IsSeasonName(season) ==> SeasonColor(season, cur1) == SeasonColor(season, cur2)
    ensures !IsSeasonName(season) ==> SeasonColor(season, cur1) == cur1
  {
    SeasonTintKeys();
  }

  /**
   * Two season names glued together, as a reader receives them when two
   * broadcasts arrive in one read, are not a season name, so they tint nothing.
   */
  lemma {:induction false} GluedNamesTintNothing(a: string, b: string, cur: Colour)
    requires IsSeasonName(a) && IsSeasonName(b)
    ensures !IsSeasonName(a + b)
    ensures SeasonColor(a + b, cur) == cur
  {
    assert |a| >= 3 && |b| >= 3;
    assert |a + b| > 9 ==> !IsSeasonName(a + b);
    if |a + b| <= 9 {
      assert |a| == 3 || |b| == 3;
      assert a == Summer || b == Summer;
      assert |a + b| in {6, 8, 9};
      assert |a + b| == 6 ==> a + b == "ETEETE";
    }
    SeasonTintKeys();
  }

  /**
   * `displayColor`: the textured mode's palette for an elevation given in
   * thousandths of a unit (`alt = z / 1000`). The thresholds are strict, so
   * an elevation exactly on a threshold takes the lower band.
   */
  function AltitudeColour(z: int): (c: Colour)
    ensures 0.0 <= c.r <= 1.0 && 0.0 <= c.g <= 1.0 && 0.0 <= c.b <= 1.0
  {
    var alt := z as real / 1000.0;
    if z > 200 then White
    else if z > 100 then Colour(alt, 1.0, 1.0)
    else if z > 50 then Colour(1.0, alt, alt)
    else Blue
  }

  /** The band an elevation falls in, stated against the source's real thresholds. */
  datatype Band = Snow | Ice | Rock | Water

  function BandOf(alt: real): Band {
    if alt > 0.2 then Snow else if alt > 0.1 then Ice else if alt > 0.05 then Rock else Water
  }

  /** The palette chooses its colour by the band of `z / 1000`, and the band's colour carries the altitude. */
  lemma AltitudeColourBands(z: int)
    ensures var alt := z as real / 1000.0;
      match BandOf(alt)
      case Snow => AltitudeColour(z) == White
      case Ice => AltitudeColour(z) == Colour(alt, 1.0, 1.0) && 0.1 < AltitudeColour(z).r <= 0.2
      case Rock => AltitudeColour(z) == Colour(1.0, alt, alt) && 0.05 < AltitudeColour(z).g <= 0.1
      case Water => AltitudeColour(z) == Blue
  {
  }

  /** Every palette colour is a valid RGB colour when the elevation is a pixel value. */
  lemma AltitudeColourInRange(z: int)
    requires 0 <= z < 256
    ensures var c := AltitudeColour(z);
      0.0 <= c.r <= 1.0 && 0.0 <= c.g <= 1.0 && 0.0 <= c.b <= 1.0
  {
  }

  /** On each threshold the lower band wins. */
  lemma AltitudeThresholds()
    ensures AltitudeColour(200) == Colour(0.2, 1.0, 1.0)
    ensures AltitudeColour(100) == Colour(1.0, 0.1, 0.1)
    ensures AltitudeColour(50) == Blue
    ensures AltitudeColour(201) == White
  {
  }
}
