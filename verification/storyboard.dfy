/** The storyboard (seekbar thumbnail) renderer record and its string form. */
module Storyboard {
  import opened Common

  /** A null spec or level is `None`. */
  datatype StoryboardRenderer = StoryboardRenderer(spec: Option<string>, isLiveStream: bool, recommendedLevel: Option<int>)

  /** The constructor stores its arguments; the getters read them back. */
  function Make(spec: Option<string>, isLiveStream: bool, recommendedLevel: Option<int>): (r: StoryboardRenderer)
    ensures GetSpec(r) == spec && IsLiveStream(r) == isLiveStream && GetRecommendedLevel(r) == recommendedLevel
  {
    StoryboardRenderer(spec, isLiveStream, recommendedLevel)
  }

  function GetSpec(r: StoryboardRenderer): Option<string> { r.spec }
  function IsLiveStream(r: StoryboardRenderer): bool { r.isLiveStream }
  function GetRecommendedLevel(r: StoryboardRenderer): Option<int> { r.recommendedLevel }

  // Decimal text of integers, as Java prints them.

  function DigitChar(d: int): (c: char)
    requires 0 <= d < 10
    ensures '0' <= c <= '9' && c as int - '0' as int == d
  {
    ('0' as int + d) as char
  }

  predicate IsDigits(s: string)
  {
    |s| > 0 && forall i :: 0 <= i < |s| ==> '0' <= s[i] <= '9'
  }

  /** Digits of `n` without leading zeros. */
  function NatDigits(n: nat): (s: string)
    ensures IsDigits(s)
    ensures |s| > 1 ==> s[0] != '0'
    decreases n
  {
    if n < 10 then [DigitChar(n)] else NatDigits(n / 10) + [DigitChar(n % 10)]
  }

  /** `Integer.toString`: a minus sign before the digits of a negative value. */
  function Decimal(n: int): string
  {
    if n < 0 then "-" + NatDigits(-n) else NatDigits(n)
  }

  /** The value of a digit string. */
  function DigitsValue(s: string): nat
    requires IsDigits(s)
    decreases |s|
  {
    var last := s[|s| - 1] as int - '0' as int;
    if |s| == 1 then last else DigitsValue(s[..|s| - 1]) * 10 + last
  }

  /** Reads back an optionally signed decimal; anything else is `None`. */
  function ParseDecimal(s: string): Option<int>
  {
    if |s| > 0 && s[0] == '-' && IsDigits(s[1..]) then
      var magnitude: int := DigitsValue(s[1..]);
      Some(-magnitude)
    else if IsDigits(s) then Some(DigitsValue(s))
    else None
  }

  lemma {:induction false} NatDigitsValue(n: nat)
    ensures DigitsValue(NatDigits(n)) == n
    decreases n
  {
    if n >= 10 {
      var s := NatDigits(n);
      assert s[..|s| - 1] == NatDigits(n / 10);
      NatDigitsValue(n / 10);
    }
  }

  /** Printing then reading a decimal gives back the number. */
  lemma DecimalRoundTrip(n: int)
    ensures ParseDecimal(Decimal(n)) == Some(n)
  {
    if n < 0 {
      var s := Decimal(n);
      assert s[0] == '-';
      assert s[1..] == NatDigits(-n);
      NatDigitsValue(-n);
    } else {
      var s := NatDigits(n);
      assert s[0] != '-';
      NatDigitsValue(n);
    }
  }

  /** `String.valueOf` of a nullable value. */
  function SpecText(spec: Option<string>): string
  {
    if spec.Some? then spec.value else "null"
  }

  function LevelText(level: Option<int>): string
  {
    if level.Some? then Decimal(level.value) else "null"
  }

  const Head := "StoryboardRenderer{spec='"
  const LevelLabel := "', recommendedLevel="

  function ToString(r: StoryboardRenderer): (s: string)
    ensures |s| > |Head| && s[..|Head|] == Head && s[|s| - 1] == '}'
    ensures r.isLiveStream ==> s == Head + SpecText(r.spec) + "}"
    ensures !r.isLiveStream ==> s == Head + SpecText(r.spec) + LevelLabel + LevelText(r.recommendedLevel) + "}"
  {
    var sb := Head + SpecText(r.spec);
    var sb := if !r.isLiveStream then sb + LevelLabel + LevelText(r.recommendedLevel) else sb;
    sb + "}"
  }

  /** The level of a non-live renderer is the text between the label and the
      closing brace, and it reads back as the level. */
  lemma RecommendedLevelReadsBack(r: StoryboardRenderer, level: int)
    requires !r.isLiveStream && r.recommendedLevel == Some(level)
    ensures var s := ToString(r);
            var k := |Head| + |SpecText(r.spec)| + |LevelLabel|;
            k < |s| && ParseDecimal(s[k..|s| - 1]) == Some(level)
  {
    var s := ToString(r);
    var k := |Head| + |SpecText(r.spec)| + |LevelLabel|;
    assert s[k..|s| - 1] == Decimal(level);
    DecimalRoundTrip(level);
  }

  /** A live-stream renderer prints the spec right before the brace: no
      closing quote and no level. */
  lemma LiveStreamOmitsLevel(r: StoryboardRenderer)
    requires r.isLiveStream
    ensures ToString(r)[|Head|..|ToString(r)| - 1] == SpecText(r.spec)
    ensures |ToString(r)| == |Head| + |SpecText(r.spec)| + 1
  {
  }

  /** Renderers that differ only in their level print alike when live. */
  lemma LiveStreamIgnoresLevel(r: StoryboardRenderer, level: Option<int>)
    requires r.isLiveStream
    ensures ToString(r.(recommendedLevel := level)) == ToString(r)
  {
  }
}
