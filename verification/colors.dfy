/**
 * Activity colours: the nine-entry built-in palette and the resolution of
 * the colour token of an activity line, which is either a custom
 * `#background#foreground` pair or a palette name in any letter case.
 */
module Palette {
  import opened Text
  import opened Rules

  datatype Color = Color(name: string, background: string, foreground: string)

  /** The name every custom hex colour carries. */
  const CustomName: string := "custom hex color"

  /** The built-in palette, keyed by lower-case name. */
  const BuiltInColors: map<string, Color> := map[
    "green" := Color("green", "#2ecc71", "#fefefe"),
    "turquoise" := Color("turquoise", "#1abc9c", "#fefefe"),
    "navy" := Color("navy", "#34495e", "#fefefe"),
    "blue" := Color("blue", "#3498db", "#fefefe"),
    "purple" := Color("purple", "#9b59b6", "#fefefe"),
    "grey" := Color("grey", "#bdc3c7", "#202020"),
    "red" := Color("red", "#e74c3c", "#fefefe"),
    "orange" := Color("orange", "#f39c12", "#fefefe"),
    "yellow" := Color("yellow", "#f1c40f", "#303030")
  ]

  /**
   * Resolves a colour token. A token holding a `#` is cut at every `#` and
   * the second and third pieces become the background and the foreground;
   * one with a single `#` has no third piece, yet `convertColor` indexes
   * `hex[2]` anyway, so such a token is excluded here. Any other token is
   * looked up, lower-cased, in the palette; `None` means the colour is not
   * valid.
   */
  function ConvertColor(token: string): (r: Option<Color>)
    requires |Split(token, '#')| != 2
    ensures '#' in token ==> r.Some? && r.value.name == CustomName
    ensures '#' !in token ==> (r.Some? <==> ToLower(token) in BuiltInColors)
    ensures '#' !in token && r.Some? ==> r.value == BuiltInColors[ToLower(token)]
  {
    var hex := Split(token, '#');
    if |hex| > 1 then
      Some(Color(CustomName, "#" + hex[1], "#" + hex[2]))
    else
      assert hex == [token];
      var key := ToLower(token);
      if key in BuiltInColors then Some(BuiltInColors[key]) else None
  }

  /**
   * A token made of `#`-free pieces joined by `#`, at least three of them,
   * resolves to the custom colour whose background is `#` and the second
   * piece and whose foreground is `#` and the third.
   */
  lemma CustomColorResolves(parts: seq<string>)
    requires |parts| >= 3
    requires forall i :: 0 <= i < |parts| ==> '#' !in parts[i]
    ensures |Split(Join(parts, '#'), '#')| != 2
    ensures ConvertColor(Join(parts, '#')) == Some(Color(CustomName, "#" + parts[1], "#" + parts[2]))
  {
    SplitJoin(parts, '#');
  }

  /** `#X#Y` is the pieces ``, X and Y joined by `#`. */
  lemma JoinHexPair(x: string, y: string)
    ensures Join(["", x, y], '#') == "#" + x + "#" + y
  {
    var parts := ["", x, y];
    assert Join(parts[2..], '#') == y;
    assert Join(parts[1..], '#') == x + "#" + y by { assert parts[1..][1..] == parts[2..]; }
  }

  lemma HexPairPieces(token: string)
    requires IsHexPair(token)
    ensures token == "#" + token[1..7] + "#" + token[8..]
    ensures '#' !in token[1..7] && '#' !in token[8..]
  {
    assert forall k :: 0 <= k < 6 ==> token[1..7][k] == token[k + 1];
    assert forall k :: 0 <= k < 6 ==> token[8..][k] == token[k + 8];
  }

  lemma NoHashInColorName(token: string)
    requires IsColorName(token)
    ensures '#' !in token
  {
    assert forall k :: 0 <= k < |token| ==> token[k] != '#';
  }

  /**
   * Every colour token the activity rule accepts can be resolved without
   * fault: a hex pair always resolves to its two halves, and a name fails
   * exactly when its lower-case form is not in the palette.
   */
  lemma ActivityColorResolves(token: string)
    requires IsColorToken(token)
    ensures |Split(token, '#')| != 2
    ensures IsHexPair(token) ==> ConvertColor(token) == Some(Color(CustomName, token[..7], token[7..]))
    ensures ConvertColor(token).None? <==> IsColorName(token) && ToLower(token) !in BuiltInColors
  {
    if IsHexPair(token) {
      HexPairPieces(token);
      JoinHexPair(token[1..7], token[8..]);
      CustomColorResolves(["", token[1..7], token[8..]]);
      assert token[..7] == "#" + token[1..7];
      assert token[7..] == "#" + token[8..];
      assert !IsColorName(token) by { assert !IsUpper(token[0]); }
    } else {
      NoHashInColorName(token);
      assert Split(token, '#') == [token];
    }
  }

  /** Every palette entry is keyed by its own name, already in lower case. */
  lemma PaletteKeys()
    ensures forall k :: k in BuiltInColors ==> BuiltInColors[k].name == k && ToLower(k) == k
  {
    forall k | k in BuiltInColors
      ensures BuiltInColors[k].name == k && ToLower(k) == k
    {
      assert forall i :: 0 <= i < |k| ==> !('A' <= k[i] <= 'Z');
    }
  }

  /**
   * Every palette colour can be written the only way the activity rule
   * admits a colour name, in capitals, and that spelling resolves to it.
   */
  lemma CapitalNamesResolve(k: string)
    requires k in BuiltInColors
    ensures IsColorName(ToUpper(k)) && |Split(ToUpper(k), '#')| != 2
    ensures ConvertColor(ToUpper(k)) == Some(BuiltInColors[k])
  {
    var upper := ToUpper(k);
    assert 0 < |k| && forall i :: 0 <= i < |k| ==> 'a' <= k[i] <= 'z';
    assert IsColorName(upper);
    NoHashInColorName(upper);
    assert Split(upper, '#') == [upper];
    CaseInsensitive(upper, k);
    PaletteKeys();
  }

  /** The palette holds nine colours. */
  lemma PaletteSize()
    ensures |BuiltInColors| == 9
  {
    var names := {"green", "turquoise", "navy", "blue", "purple", "grey", "red", "orange", "yellow"};
    assert BuiltInColors.Keys == names;
    assert |names| == 9;
  }
}
