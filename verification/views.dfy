/**
 * Text the panel derives from the state, and the text tests the tile extractor
 * applies: the `cur/total` badge, the `subchannel • duration` meta line, the
 * duration patterns `^\d+:\d+(:\d+)?$` and `Duration:\s*(\d+:\d+(:\d+)?)`, and the
 * test that keeps durations and labels from being taken as titles.
 */
module Views {
  import opened Wrappers
  import opened Text

  // ---- badge ----

  /** The first `/` of `p + "/" + t` is the one between them when `p` has none. */
  lemma FirstSlashSeparates(p: string, t: string)
    requires forall j :: 0 <= j < |p| ==> p[j] != '/'
    ensures var b := p + "/" + t;
      IndexOfFrom(b, "/", 0) == |p| && b[..|p|] == p && b[|p| + 1..] == t
  {
    var b := p + "/" + t;
    assert OccursAt(b, "/", |p|);
    forall j | 0 <= j < |p| ensures !OccursAt(b, "/", j) {
      assert b[j] == p[j];
    }
    assert b[..|p|] == p;
    assert b[|p| + 1..] == t;
  }

  /** The badge text: the 1-based position of the current entry, or `-`, then `/` and the count;
      its first `/` is the one separating the two. */
  function Badge(current: int, total: nat): (b: string)
    ensures var k := IndexOfFrom(b, "/", 0);
      0 <= k < |b| && b[k + 1..] == NatToString(total)
      && b[..k] == (if current >= 0 then NatToString(current + 1) else "-")
  {
    var p := if current >= 0 then NatToString(current + 1) else "-";
    assert forall j :: 0 <= j < |p| ==> p[j] != '/';
    FirstSlashSeparates(p, NatToString(total));
    p + "/" + NatToString(total)
  }

  /** The badge reads back: the text before its first `/` is the 1-based position (or `-` when
      none is current), the text after it the count. */
  lemma BadgeReadsBack(current: int, total: nat)
    ensures var b := Badge(current, total);
      var k := IndexOfFrom(b, "/", 0);
      0 <= k < |b| && AllDigits(b[k + 1..]) && DigitsValue(b[k + 1..]) == total
      && (current >= 0 ==> AllDigits(b[..k]) && DigitsValue(b[..k]) == current + 1)
      && (current < 0 ==> b[..k] == "-")
  {
    NatToStringRoundTrip(total);
    if current >= 0 {
      NatToStringRoundTrip(current + 1);
    }
  }

  // ---- meta line ----

  /** `parts.join(sep)`; a definition, specified through the closed form in `MetaLine`'s contract. */
  function Join(parts: seq<string>, sep: string): string
  {
    if |parts| == 0 then ""
    else if |parts| == 1 then parts[0]
    else parts[0] + sep + Join(parts[1..], sep)
  }

  const MetaSeparator: string := " \U{2022} "

  /** The row's meta line: the non-empty ones of subchannel and duration, joined; that is both
      parts with the separator, one part alone, or nothing. */
  function MetaLine(subchannel: string, duration: string): (line: string)
    ensures line ==
      if subchannel == "" then duration
      else if duration == "" then subchannel
      else subchannel + MetaSeparator + duration
  {
    var parts := (if subchannel != "" then [subchannel] else []) + (if duration != "" then [duration] else []);
    assert subchannel != "" && duration != "" ==>
      Join(parts, MetaSeparator) == subchannel + MetaSeparator + Join([duration], MetaSeparator);
    Join(parts, MetaSeparator)
  }

  // ---- durations ----

  predicate Numeral(s: string) {
    |s| > 0 && AllDigits(s)
  }

  /** The length of the greedy `\d+` match at the start of `s`. */
  function LeadingDigits(s: string): (n: nat)
    ensures n <= |s|
    ensures forall i :: 0 <= i < n ==> IsDigit(s[i])
    ensures n < |s| ==> !IsDigit(s[n])
  {
    if |s| > 0 && IsDigit(s[0]) then 1 + LeadingDigits(s[1..]) else 0
  }

  /** The ensures of LeadingDigits determine it. */
  lemma LeadingDigitsIs(s: string, n: nat)
    requires n <= |s| && AllDigits(s[..n]) && (n < |s| ==> !IsDigit(s[n]))
    ensures LeadingDigits(s) == n
  {
  }

  /** The length of the greedy match of `\d+:\d+(:\d+)?` at the start of `s`, or 0 when it does not
      match; a definition, specified through `ClockLengthChars`, `ClockPrefixIsClock` and the
      shape lemmas on `IsClock`. */
  function ClockLength(s: string): (n: nat)
    ensures n <= |s|
  {
    var a := LeadingDigits(s);
    if a == 0 || a == |s| || s[a] != ':' then 0
    else
      var b := LeadingDigits(s[a + 1..]);
      if b == 0 then 0
      else
        var m := a + 1 + b;
        if m < |s| && s[m] == ':' && LeadingDigits(s[m + 1..]) > 0 then m + 1 + LeadingDigits(s[m + 1..])
        else m
  }

  /** The match at the start is made of digits and colons, and starts and ends with a digit. */
  lemma ClockLengthChars(s: string)
    ensures var n := ClockLength(s);
      (n > 0 ==> 3 <= n && IsDigit(s[0]) && IsDigit(s[n - 1]))
      && forall i :: 0 <= i < n ==> IsDigit(s[i]) || s[i] == ':'
  {
    var n := ClockLength(s);
    if n > 0 {
      var a := LeadingDigits(s);
      var b := LeadingDigits(s[a + 1..]);
      var m := a + 1 + b;
      forall i | a + 1 <= i < m ensures IsDigit(s[i]) {
        assert s[i] == s[a + 1..][i - a - 1];
      }
      if n > m {
        var c := LeadingDigits(s[m + 1..]);
        forall i | m + 1 <= i < n ensures IsDigit(s[i]) {
          assert s[i] == s[m + 1..][i - m - 1];
        }
      }
    }
  }

  /** `/^\d+:\d+(:\d+)?$/.test(s)`: a duration is made of digits and colons, and starts and
      ends with a digit. */
  predicate IsClock(s: string)
    ensures IsClock(s) ==> 3 <= |s| && IsDigit(s[0]) && IsDigit(s[|s| - 1])
    ensures IsClock(s) ==> forall i :: 0 <= i < |s| ==> IsDigit(s[i]) || s[i] == ':'
  {
    ClockLengthChars(s);
    |s| > 0 && ClockLength(s) == |s|
  }

  /** `/^\d+:\d+$/.test(s)`: exactly one colon, with digits on both sides. */
  predicate IsBareClock(s: string)
    ensures IsBareClock(s) ==> 0 < LeadingDigits(s) < |s| - 1 && s[LeadingDigits(s)] == ':'
    ensures IsBareClock(s) ==> forall i :: 0 <= i < |s| && i != LeadingDigits(s) ==> IsDigit(s[i])
  {
    var a := LeadingDigits(s);
    0 < a < |s| - 1 && s[a] == ':' && LeadingDigits(s[a + 1..]) == |s| - a - 1
  }

  /** Reference shapes: digits, a colon, digits; and the same with a third group. */
  ghost predicate TwoPartAt(s: string, i: int) {
    0 < i < |s| - 1 && s[i] == ':' && Numeral(s[..i]) && Numeral(s[i + 1..])
  }

  ghost predicate ThreePartAt(s: string, i: int, j: int) {
    0 < i && i + 1 < j < |s| - 1 && s[i] == ':' && s[j] == ':'
    && Numeral(s[..i]) && Numeral(s[i + 1..j]) && Numeral(s[j + 1..])
  }

  /** The two-part test accepts exactly `digits:digits`. */
  lemma BareClockIsTwoPart(s: string)
    ensures IsBareClock(s) <==> exists i :: TwoPartAt(s, i)
  {
    if IsBareClock(s) {
      assert TwoPartAt(s, LeadingDigits(s));
    }
    if i :| TwoPartAt(s, i) {
      LeadingDigitsIs(s, i);
      LeadingDigitsIs(s[i + 1..], |s| - i - 1);
    }
  }

  /** A string passing the full test has one of the two reference shapes. */
  lemma ClockHasShape(s: string)
    requires IsClock(s)
    ensures (exists i :: TwoPartAt(s, i)) || (exists i, j :: ThreePartAt(s, i, j))
  {
    var a := LeadingDigits(s);
    var b := LeadingDigits(s[a + 1..]);
    var m := a + 1 + b;
    assert s[a + 1..][..b] == s[a + 1..m];
    if m == |s| {
      assert TwoPartAt(s, a);
    } else {
      assert ThreePartAt(s, a, m);
    }
  }

  /** `digits:digits` passes the full test. */
  lemma TwoPartIsClock(s: string, i: int)
    requires TwoPartAt(s, i)
    ensures IsClock(s)
  {
    LeadingDigitsIs(s, i);
    LeadingDigitsIs(s[i + 1..], |s| - i - 1);
  }

  /** `digits:digits:digits` passes the full test. */
  lemma ThreePartIsClock(s: string, i: int, j: int)
    requires ThreePartAt(s, i, j)
    ensures IsClock(s)
  {
    LeadingDigitsIs(s, i);
    assert s[i + 1..][..j - i - 1] == s[i + 1..j];
    LeadingDigitsIs(s[i + 1..], j - i - 1);
    LeadingDigitsIs(s[j + 1..], |s| - j - 1);
  }

  /** The full test accepts exactly `digits:digits` and `digits:digits:digits`. */
  lemma ClockIsTwoOrThreePart(s: string)
    ensures IsClock(s) <==> (exists i :: TwoPartAt(s, i)) || (exists i, j :: ThreePartAt(s, i, j))
  {
    if IsClock(s) {
      ClockHasShape(s);
    }
    if i :| TwoPartAt(s, i) {
      TwoPartIsClock(s, i);
    }
    if i, j :| ThreePartAt(s, i, j) {
      ThreePartIsClock(s, i, j);
    }
  }

  /** A bare clock passes the full test too. */
  lemma BareClockIsClock(s: string)
    ensures IsBareClock(s) ==> IsClock(s)
  {
    BareClockIsTwoPart(s);
    ClockIsTwoOrThreePart(s);
  }

  /** The greedy match at the start of a string is itself a clock. */
  lemma ClockPrefixIsClock(s: string)
    requires ClockLength(s) > 0
    ensures IsClock(s[..ClockLength(s)])
  {
    var n := ClockLength(s);
    var u := s[..n];
    var a := LeadingDigits(s);
    var b := LeadingDigits(s[a + 1..]);
    var m := a + 1 + b;
    LeadingDigitsIs(u, a);
    assert u[a + 1..] == s[a + 1..][..n - a - 1];
    LeadingDigitsIs(u[a + 1..], b);
    if n > m {
      var c := LeadingDigits(s[m + 1..]);
      assert u[m + 1..] == s[m + 1..][..c];
      LeadingDigitsIs(u[m + 1..], c);
    }
  }

  const DurationLabel: string := "Duration:"

  /** The position after the run of `\s` characters starting at `i`. */
  function SkipSpaces(s: string, i: nat): (j: nat)
    requires i <= |s|
    ensures i <= j <= |s|
    ensures forall k :: i <= k < j ==> IsSpace(s[k])
    ensures j < |s| ==> !IsSpace(s[j])
    decreases |s| - i
  {
    if i < |s| && IsSpace(s[i]) then SkipSpaces(s, i + 1) else i
  }

  /** `/Duration:\s*(\d+:\d+(:\d+)?)/` matches at `j`: the label, a run of spaces, then a clock.
      Neither `\s*` nor the digit runs can give back characters to let the match succeed
      otherwise, so the greedy reading is the only one. */
  predicate LabelMatchAt(s: string, j: int) {
    OccursAt(s, DurationLabel, j) && ClockLength(s[SkipSpaces(s, j + |DurationLabel|)..]) > 0
  }

  /** The captured group of the match at `j`. */
  function CapturedAt(s: string, j: int): string
    requires LabelMatchAt(s, j)
  {
    var p := SkipSpaces(s, j + |DurationLabel|);
    s[p..][..ClockLength(s[p..])]
  }

  /** The captured group of the first match of `/Duration:\s*(\d+:\d+(:\d+)?)/` at or after `i`:
      none exactly when there is no match there; otherwise the group of the leftmost one. */
  function LabelledClockFrom(s: string, i: nat): (r: Option<string>)
    requires i <= |s|
    ensures r.None? <==> forall j :: i <= j <= |s| ==> !LabelMatchAt(s, j)
    ensures r.Some? ==>
      exists j :: i <= j <= |s| && LabelMatchAt(s, j) && r.value == CapturedAt(s, j)
                  && forall k :: i <= k < j ==> !LabelMatchAt(s, k)
    ensures r.Some? ==> IsClock(r.value)
    decreases |s| - i
  {
    if LabelMatchAt(s, i) then
      ClockPrefixIsClock(s[SkipSpaces(s, i + |DurationLabel|)..]);
      Some(CapturedAt(s, i))
    else if i == |s| then None
    else LabelledClockFrom(s, i + 1)
  }

  /** The duration read from a tile's duration element: its trimmed text when that is a clock,
      else the clock following the first labelled match, else empty; no element gives empty. */
  function DurationText(element: Option<string>): (d: string)
    ensures d == "" || IsClock(d)
    ensures element.Some? && IsClock(Trim(element.value)) ==> d == Trim(element.value)
    ensures element.Some? && !IsClock(Trim(element.value)) ==>
      var t := Trim(element.value);
      (d == "" <==> forall j :: 0 <= j <= |t| ==> !LabelMatchAt(t, j))
      && (d != "" ==>
            exists j :: 0 <= j <= |t| && LabelMatchAt(t, j) && d == CapturedAt(t, j)
                        && forall k :: 0 <= k < j ==> !LabelMatchAt(t, k))
    ensures element.None? ==> d == ""
  {
    match element
    case None => ""
    case Some(raw) =>
      var text := Trim(raw);
      if IsClock(text) then text
      else match LabelledClockFrom(text, 0)
        case Some(clock) => clock
        case None => ""
  }

  // ---- titles ----

  /** The test a link's trimmed text must pass to be taken as the tile's title: longer than
      one character, not of the shape `digits:digits`, and not labelled as a duration. */
  predicate TitleTest(text: string)
    ensures TitleTest(text) <==>
      |text| > 1 && (forall i :: !TwoPartAt(text, i)) && !StartsWith(text, DurationLabel)
  {
    BareClockIsTwoPart(text);
    |text| > 1 && !IsBareClock(text) && !StartsWith(text, DurationLabel)
  }

  /** The title test rejects only two-group clocks: every three-group duration, a long video's
      `1:23:45` among them, passes it, though the duration test accepts it as a duration. */
  lemma ThreePartPassesTitleTest(s: string, i: int, j: int)
    requires ThreePartAt(s, i, j)
    ensures TitleTest(s) && IsClock(s)
  {
    ThreePartIsClock(s, i, j);
    LeadingDigitsIs(s, i);
    assert s[i + 1..][..j - i - 1] == s[i + 1..j];
    LeadingDigitsIs(s[i + 1..], j - i - 1);
    assert s[..i][0] == s[0];
  }

  /** The title test as its intent reads: no duration of either form, and no label, is a title. */
  predicate IntendedTitleTest(text: string)
    ensures IntendedTitleTest(text) <==>
      |text| > 1 && (forall i :: !TwoPartAt(text, i)) && (forall i, j :: !ThreePartAt(text, i, j))
      && !StartsWith(text, DurationLabel)
  {
    ClockIsTwoOrThreePart(text);
    |text| > 1 && !IsClock(text) && !StartsWith(text, DurationLabel)
  }

  /** The intended test accepts no duration at all, and it differs from the written test exactly
      on the three-group durations. */
  lemma IntendedTitleTestRejectsDurations(text: string)
    ensures IntendedTitleTest(text) <==> TitleTest(text) && !(exists i, j :: ThreePartAt(text, i, j))
    ensures IntendedTitleTest(text) ==> !IsClock(text)
  {
    ClockIsTwoOrThreePart(text);
  }
}
