/**
  Display labels for levels and turn states (lib/labels.ts).
 */
module Labels {
  import opened State

  /** The named levels; every other level is shown by its number. */
  const LevelLabels: map<int, string> := map[
    0 := "Pregame",
    1 := "Zonk",
    2 := "Vanna",
    3 := "Mitch",
    4 := "Three Mile Island",
    5 := "Chernobyl",
    6 := "Challenger",
    7 := "Hindenberg",
    8 := "Titanic",
    9 := "Fukushima"
  ]

  // ---------------------------------------------------------------------------
  // Decimal numerals, as a template literal prints an integer

  function DigitChar(d: int): char
    requires 0 <= d < 10
  {
    "0123456789"[d]
  }

  predicate IsDigit(c: char) {
    '0' <= c <= '9'
  }

  function DigitValue(c: char): int
    requires IsDigit(c)
  {
    c as int - '0' as int
  }

  /** The decimal numeral of `n`, most significant digit first, no leading zero. */
  function NatToString(n: nat): (s: string)
    ensures |s| > 0
    ensures forall i :: 0 <= i < |s| ==> IsDigit(s[i])
    ensures |s| == 1 || s[0] != '0'
    decreases n
  {
    if n < 10 then [DigitChar(n)] else NatToString(n / 10) + [DigitChar(n % 10)]
  }

  function IntToString(n: int): string {
    if n < 0 then "-" + NatToString(-n) else NatToString(n)
  }

  /** Reads a string of digits back as a number. */
  function ParseDigits(s: string): nat
    requires forall i :: 0 <= i < |s| ==> IsDigit(s[i])
  {
    if |s| == 0 then 0
    else 10 * ParseDigits(s[..|s| - 1]) + DigitValue(s[|s| - 1])
  }

  lemma {:induction false} NatToStringRoundTrip(n: nat)
    ensures ParseDigits(NatToString(n)) == n
    decreases n
  {
    var s := NatToString(n);
    if n >= 10 {
      NatToStringRoundTrip(n / 10);
      assert s[..|s| - 1] == NatToString(n / 10);
    }
  }

  lemma NatToStringInjective(a: nat, b: nat)
    requires a != b
    ensures NatToString(a) != NatToString(b)
  {
    NatToStringRoundTrip(a);
    NatToStringRoundTrip(b);
  }

  /** Different integers print differently. */
  lemma IntToStringInjective(a: int, b: int)
    requires a != b
    ensures IntToString(a) != IntToString(b)
  {
    var sa, sb := IntToString(a), IntToString(b);
    if a < 0 && b < 0 {
      NatToStringInjective(-a, -b);
      assert sa[1..] == NatToString(-a);
      assert sb[1..] == NatToString(-b);
    } else if a >= 0 && b >= 0 {
      NatToStringInjective(a, b);
    } else if a < 0 {
      assert sa[0] == '-';
      assert IsDigit(sb[0]);
    } else {
      assert sb[0] == '-';
      assert IsDigit(sa[0]);
    }
  }

  // ---------------------------------------------------------------------------
  // Labels

  /** A level's name from the table, or "Level " followed by its number. */
  function GetLevelLabel(level: int): string {
    if level in LevelLabels then LevelLabels[level] else "Level " + IntToString(level)
  }

  /** A level in 0..9 gets its table entry. */
  lemma TableLevelLabel(level: int)
    requires 0 <= level <= 9
    ensures GetLevelLabel(level) == LevelLabels[level]
  {
  }

  /** A prefix followed by a numeral splits back into the two. */
  lemma PrefixedNumeral(prefix: string, n: nat)
    ensures
      var r := prefix + NatToString(n);
      && |r| > |prefix| && r[..|prefix|] == prefix
      && r[|prefix|..] == NatToString(n)
      && (forall i :: |prefix| <= i < |r| ==> IsDigit(r[i]))
      && ParseDigits(r[|prefix|..]) == n
  {
    var r := prefix + NatToString(n);
    assert r[|prefix|..] == NatToString(n);
    NatToStringRoundTrip(n);
  }

  /**
    A level above the table gets "Level " and then its decimal numeral, with
    no leading zero, which reads back as the level.
   */
  lemma NumberedLevelLabel(level: int)
    requires level > 9
    ensures
      var r := GetLevelLabel(level);
      && |r| > 6 && r[..6] == "Level "
      && (forall i :: 6 <= i < |r| ==> IsDigit(r[i]))
      && (|r| == 7 || r[6] != '0')
      && ParseDigits(r[6..]) == level
  {
    assert level !in LevelLabels;
    assert GetLevelLabel(level) == "Level " + NatToString(level);
    PrefixedNumeral("Level ", level);
  }

  /** A minus sign in front of a numeral leaves the numeral readable after it. */
  lemma SignedNumeral(d: string, v: nat)
    requires |d| > 0 && forall i :: 0 <= i < |d| ==> IsDigit(d[i])
    requires ParseDigits(d) == v
    ensures
      var s := "-" + d;
      && |s| > 1 && s[0] == '-'
      && (forall i :: 1 <= i < |s| ==> IsDigit(s[i]))
      && ParseDigits(s[1..]) == v
  {
    var s := "-" + d;
    assert s[1..] == d;
  }

  /** A negative integer prints as a minus sign and the numeral of its magnitude. */
  lemma NegativeIntToString(n: int)
    requires n < 0
    ensures
      var s := IntToString(n);
      && |s| > 1 && s[0] == '-'
      && (forall i :: 1 <= i < |s| ==> IsDigit(s[i]))
      && (|s| == 2 || s[1] != '0')
      && ParseDigits(s[1..]) == -n
  {
    NatToStringRoundTrip(-n);
    SignedNumeral(NatToString(-n), -n);
  }

  /** A level outside the table is "Level " followed by the printed level. */
  lemma UntabledLevelLabel(level: int)
    requires level !in LevelLabels
    ensures
      var r := GetLevelLabel(level);
      |r| > 6 && r[..6] == "Level " && r[6..] == IntToString(level)
  {
  }

  /** A negative level gets "Level -" and then the numeral of its magnitude, with no leading zero. */
  lemma NegativeLevelLabel(level: int)
    requires level < 0
    ensures
      var r := GetLevelLabel(level);
      && |r| > 7 && r[..6] == "Level "
      && var tail := r[6..];
      && tail[0] == '-'
      && (forall i :: 1 <= i < |tail| ==> IsDigit(tail[i]))
      && (|tail| == 2 || tail[1] != '0')
      && ParseDigits(tail[1..]) == -level
  {
    LevelTableDomain(level);
    UntabledLevelLabel(level);
    NegativeIntToString(level);
  }

  lemma LevelLabelExamples()
    ensures GetLevelLabel(0) == "Pregame"
    ensures GetLevelLabel(1) == "Zonk"
    ensures GetLevelLabel(10) == "Level 10"
    ensures GetLevelLabel(-1) == "Level -1"
  {
    assert NatToString(10) == "10";
  }

  /** The table covers exactly the levels 0 through 9. */
  lemma LevelTableDomain(level: int)
    ensures level in LevelLabels <==> 0 <= level <= 9
  {
  }

  /** The ten table labels are pairwise distinct. */
  lemma TableLabelsDistinct()
    ensures forall a, b :: a in LevelLabels && b in LevelLabels && a != b ==> LevelLabels[a] != LevelLabels[b]
  {
  }

  /** No table label starts with an "L", so none is mistaken for a numbered one. */
  lemma TableLabelsNotNumbered(level: int)
    requires level in LevelLabels
    ensures |LevelLabels[level]| > 0 && LevelLabels[level][0] != 'L'
  {
    LevelTableDomain(level);
    if level == 0 {} else if level == 1 {} else if level == 2 {} else if level == 3 {}
    else if level == 4 {} else if level == 5 {} else if level == 6 {} else if level == 7 {}
    else if level == 8 {} else {}
  }

  /** Different levels always get different labels. */
  lemma LevelLabelInjective(a: int, b: int)
    requires a != b
    ensures GetLevelLabel(a) != GetLevelLabel(b)
  {
    TableLabelsDistinct();
    if a !in LevelLabels && b !in LevelLabels {
      IntToStringInjective(a, b);
      assert GetLevelLabel(a)[6..] == IntToString(a);
      assert GetLevelLabel(b)[6..] == IntToString(b);
    } else if a !in LevelLabels {
      TableLabelsNotNumbered(b);
      assert GetLevelLabel(a)[0] == 'L';
    } else if b !in LevelLabels {
      TableLabelsNotNumbered(a);
      assert GetLevelLabel(b)[0] == 'L';
    }
  }

  function GetTurnStateLabel(turnState: TurnState): string {
    match turnState
    case Ready => "Ready"
    case InProgress => "In Progress"
    case Complete => "Complete"
    case Busted => "Busted"
  }

  /** Every turn state has a label, and no two share one. */
  lemma TurnStateLabelInjective(a: TurnState, b: TurnState)
    requires a != b
    ensures GetTurnStateLabel(a) != GetTurnStateLabel(b)
  {
  }
}
