/** How scores and names are shown: the badge variant and text colour for a
    score (`getScoreVariant`, `getScoreColor`) and the display form of an
    enum name (`formatParameterName`). */
module Labels {
  import opened Wrappers
  import opened JsText
  import opened Catalog

  datatype Variant = Default | Secondary | Destructive

  /** Badge variant: "default" from 85 up, "secondary" from 70, else "destructive". */
  function ScoreVariant(score: int): (r: Variant)
    ensures r == Default <==> 85 <= score
    ensures r == Destructive <==> score < 70
  {
    if score >= 85 then Default
    else if score >= 70 then Secondary
    else Destructive
  }

  /** Text colour class; below 70 the source returns `undefined` (no class). */
  function ScoreColor(score: int): (r: Option<string>)
    ensures r.None? <==> score < 70
    ensures r.Some? ==> r.value == "text-green-600" || r.value == "text-yellow-600"
  {
    if score >= 85 then Some("text-green-600")
    else if score >= 70 then Some("text-yellow-600")
    else None
  }

  /** Ordering of the bands from worst to best. */
  function BandRank(v: Variant): nat {
    match v
    case Destructive => 0
    case Secondary => 1
    case Default => 2
  }

  /** The three bands partition the scores at 70 and 85. */
  lemma VariantBands(score: int)
    ensures ScoreVariant(score) == Default <==> 85 <= score
    ensures ScoreVariant(score) == Secondary <==> 70 <= score < 85
    ensures ScoreVariant(score) == Destructive <==> score < 70
  {
  }

  /** The colour follows the variant band for band: green with "default",
      yellow with "secondary", and no colour at all with "destructive". */
  lemma ColorMatchesVariant(score: int)
    ensures ScoreColor(score) == Some("text-green-600") <==> ScoreVariant(score) == Default
    ensures ScoreColor(score) == Some("text-yellow-600") <==> ScoreVariant(score) == Secondary
    ensures ScoreColor(score).None? <==> ScoreVariant(score) == Destructive
  {
  }

  /** A higher score never gets a worse band. */
  lemma VariantMonotone(a: int, b: int)
    requires a <= b
    ensures BandRank(ScoreVariant(a)) <= BandRank(ScoreVariant(b))
  {
  }

  /** The `\w` class without the `u` flag: ASCII letters, digits and `_`. */
  predicate IsWordChar(c: char) {
    IsAsciiUpper(c) || IsAsciiLower(c) || IsDigit(c) || c == '_'
  }

  /** `name.replace(/_/g, " ")` */
  function ReplaceUnderscores(name: string): (r: string)
    ensures |r| == |name|
    ensures '_' !in r
  {
    seq(|name|, i requires 0 <= i < |name| => if name[i] == '_' then ' ' else name[i])
  }

  /** `s.replace(/\b\w/g, l => l.toUpperCase())`: a word character with no
      word character before it is upper-cased. */
  function CapitalizeWords(s: string): string {
    seq(|s|, i requires 0 <= i < |s| =>
      if IsWordChar(s[i]) && (i == 0 || !IsWordChar(s[i - 1])) then ToUpperChar(s[i]) else s[i])
  }

  /** Where a displayed word starts, read off the raw name: an ASCII letter
      or digit that is first or follows anything but a letter or digit
      (an underscore separates words). */
  predicate StartsWord(name: string, i: int)
    requires 0 <= i < |name|
  {
    IsWordChar(name[i]) && name[i] != '_'
    && (i == 0 || !IsWordChar(name[i - 1]) || name[i - 1] == '_')
  }

  /** The character at one position of the formatted name. */
  lemma FormatAt(name: string, i: int)
    requires 0 <= i < |name|
    ensures
      var r := CapitalizeWords(ReplaceUnderscores(name));
      && |r| == |name|
      && (name[i] == '_' ==> r[i] == ' ')
      && (StartsWord(name, i) ==> r[i] == ToUpperChar(name[i]))
      && (name[i] != '_' && !StartsWord(name, i) ==> r[i] == name[i])
  {
    var u := ReplaceUnderscores(name);
    assert IsWordChar(u[i]) <==> IsWordChar(name[i]) && name[i] != '_';
    if i > 0 {
      assert IsWordChar(u[i - 1]) <==> IsWordChar(name[i - 1]) && name[i - 1] != '_';
    }
  }

  /** `formatParameterName`: underscores become spaces, each word's first
      character is upper-cased, nothing else changes. */
  function FormatParameterName(name: string): (r: string)
    ensures |r| == |name|
    ensures '_' !in r
    ensures forall i :: 0 <= i < |name| && name[i] == '_' ==> r[i] == ' '
    ensures forall i :: 0 <= i < |name| && StartsWord(name, i) ==> r[i] == ToUpperChar(name[i])
    ensures forall i :: 0 <= i < |name| && name[i] != '_' && !StartsWord(name, i) ==> r[i] == name[i]
  {
    var r := CapitalizeWords(ReplaceUnderscores(name));
    assert forall i | 0 <= i < |name| :: r[i] != '_' by {
      forall i | 0 <= i < |name|
        ensures r[i] != '_'
      {
        FormatAt(name, i);
      }
    }
    assert forall i | 0 <= i < |name| ::
      && (name[i] == '_' ==> r[i] == ' ')
      && (StartsWord(name, i) ==> r[i] == ToUpperChar(name[i]))
      && (name[i] != '_' && !StartsWord(name, i) ==> r[i] == name[i])
    by {
      forall i | 0 <= i < |name| {
        FormatAt(name, i);
      }
    }
    r
  }

  /** Formatting an already formatted name changes nothing. */
  lemma FormatIdempotent(name: string)
    ensures FormatParameterName(FormatParameterName(name)) == FormatParameterName(name)
  {
    var r := FormatParameterName(name);
    var r2 := FormatParameterName(r);
    forall i | 0 <= i < |name|
      ensures r2[i] == r[i]
    {
      assert IsWordChar(r[i]) <==> IsWordChar(name[i]) && name[i] != '_';
      if i > 0 {
        assert IsWordChar(r[i - 1]) <==> IsWordChar(name[i - 1]) && name[i - 1] != '_';
      }
    }
  }

  /** A name without lower-case letters only has its underscores replaced. */
  lemma FormatUpperCaseName(name: string)
    requires forall i :: 0 <= i < |name| ==> !IsAsciiLower(name[i])
    ensures FormatParameterName(name) == ReplaceUnderscores(name)
  {
    var r := FormatParameterName(name);
    forall i | 0 <= i < |name|
      ensures r[i] == ReplaceUnderscores(name)[i]
    {
      assert ToUpperChar(name[i]) == name[i];
    }
  }

  /** Enum names are upper case already, so formatting them only turns
      underscores into spaces. */
  lemma FormatTypeName(t: PresentationType)
    ensures FormatParameterName(TypeName(t)) == ReplaceUnderscores(TypeName(t))
  {
    var n := TypeName(t);
    assert forall i :: 0 <= i < |n| ==> IsAsciiUpper(n[i]) || n[i] == '_';
    FormatUpperCaseName(n);
  }

  /** `SLIDES_ONLY` reads `SLIDES ONLY`. */
  lemma FormatSlidesOnly()
    ensures FormatParameterName("SLIDES_ONLY") == "SLIDES ONLY"
  {
    FormatTypeName(SlidesOnly);
    assert ReplaceUnderscores("SLIDES_ONLY") == "SLIDES ONLY";
  }

  /** Lower-case words are capitalised: `content_quality` reads `Content Quality`. */
  lemma FormatLowerCaseExample()
    ensures FormatParameterName("content_quality") == "Content Quality"
  {
  }
}
