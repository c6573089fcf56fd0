/**
 * The notification button: the status read from two `swaync-client` runs,
 * the icon markup and the tooltip shown for it. Running the commands and the
 * two-second timer are not part of this model; each run's outcome is an input.
 */
module Notification {
  import opened Wrappers
  import opened Text

  datatype NotificationStatus = NotificationStatus(count: u32, dnd: bool)

  /** A finished command run: whether it exited successfully, and its standard output as text. */
  datatype CommandOutput = CommandOutput(success: bool, stdout: string)

  /** What the label and its button show. */
  datatype LabelText = PlainText(text: string) | Markup(markup: string)
  datatype Display = Display(shown: LabelText, tooltip: string)

  const RedDot := "<span foreground='red'><sup>\U{25CF}</sup></span>"
  const Bell := "\U{1F514}"
  const UnavailableTooltip := "Notifications unavailable"
  const NoNotifications := "No notifications"

  /** The count: the trimmed output parsed as a `u32`, and 0 when that fails. */
  function ParseCount(stdout: string): (n: u32)
    ensures Trim(stdout) == [] ==> n == 0
    ensures Trim(stdout) != [] && Trim(stdout)[0] == '-' ==> n == 0
    ensures var digits := UnsignedDigits(Trim(stdout));
            if digits != [] && AllDigits(digits) && DigitsValue(digits) <= U32Max then n == DigitsValue(digits)
            else n == 0
  {
    match ParseU32(Trim(stdout))
    case Some(v) => v
    case None => 0
  }

  /** Do-not-disturb is on exactly when the trimmed, lower-cased output is "true". */
  function ParseDnd(stdout: string): (dnd: bool)
    ensures dnd <==> |Trim(stdout)| == 4 && forall i :: 0 <= i < 4 ==> AsciiLowerChar(Trim(stdout)[i]) == "true"[i]
  {
    AsciiLower(Trim(stdout)) == "true"
  }

  /**
   * `get_notification_status`: `None` when the count command cannot be run or
   * fails, then likewise for the do-not-disturb command; otherwise both parsed
   * outputs. `None` for a run means the process could not be started.
   */
  function GetNotificationStatus(countRun: Option<CommandOutput>, dndRun: Option<CommandOutput>): (r: Option<NotificationStatus>)
    ensures r.Some? <==> countRun.Some? && countRun.value.success && dndRun.Some? && dndRun.value.success
    ensures r.Some? ==> (r.value.count == ParseCount(countRun.value.stdout)
                         && r.value.dnd == ParseDnd(dndRun.value.stdout))
  {
    if countRun.None? || !countRun.value.success then None
    else if dndRun.None? || !dndRun.value.success then None
    else Some(NotificationStatus(ParseCount(countRun.value.stdout), ParseDnd(dndRun.value.stdout)))
  }

  /** `get_icon_for_status`: a red dot when there are notifications, nothing otherwise. */
  function IconForStatus(status: NotificationStatus): (markup: string)
    ensures markup == RedDot <==> status.count > 0
    ensures markup == [] <==> status.count == 0
  {
    if status.count > 0 then
      if status.dnd then RedDot else RedDot
    else
      if status.dnd then "" else ""
  }

  /** The tooltip of `update_display`: "No notifications", "1 notification" or "<n> notifications". */
  function TooltipForStatus(status: NotificationStatus): (tooltip: string)
    ensures status.count == 0 ==> tooltip == NoNotifications
    ensures status.count > 0 ==> CountThenSpace(tooltip, NatToString(status.count))
    ensures status.count == 1 <==> tooltip == "1 notification"
    ensures status.count > 1 ==> tooltip[|tooltip| - 1] == 's'
    ensures status.count > 1 ==> tooltip == NatToString(status.count) + " notifications"
  {
    if status.count > 0 then
      NatToString(status.count) + " notification" + (if status.count == 1 then "" else "s")
    else NoNotifications
  }

  /** `text` starts with the digits `number` and a space. */
  predicate CountThenSpace(text: string, number: string) {
    |number| < |text| && text[..|number|] == number && text[|number|] == ' '
  }

  /** What one refresh shows: the status's icon and tooltip, or the bell when no status could be read. */
  function DisplayFor(status: Option<NotificationStatus>): (d: Display)
    ensures status.None? ==> d == Display(PlainText(Bell), UnavailableTooltip)
    ensures status.Some? ==> (d.shown.Markup? && d.shown.markup == IconForStatus(status.value)
                              && d.tooltip == TooltipForStatus(status.value))
  {
    match status
    case None => Display(PlainText(Bell), UnavailableTooltip)
    case Some(s) => Display(Markup(IconForStatus(s)), TooltipForStatus(s))
  }

  /** A count printed by the command, with any surrounding whitespace, is read back exactly. */
  lemma CountRoundTrip(before: string, n: u32, after: string)
    requires AllWhitespace(before) && AllWhitespace(after)
    ensures ParseCount(before + NatToString(n) + after) == n
  {
    TrimSurrounded(before, NatToString(n), after);
    ParseU32OfNatToString(n);
  }

  /** So is a count written with a leading '+'. */
  lemma PlusCountRoundTrip(before: string, n: u32, after: string)
    requires AllWhitespace(before) && AllWhitespace(after)
    ensures ParseCount(before + ("+" + NatToString(n)) + after) == n
  {
    TrimSurrounded(before, "+" + NatToString(n), after);
    ParseU32OfNatToString(n);
  }

  /** A number too large for 32 bits is not an error: it reads as 0. */
  lemma CountOverflowReadsZero(before: string, n: nat, after: string)
    requires AllWhitespace(before) && AllWhitespace(after)
    requires n > U32Max
    ensures ParseCount(before + NatToString(n) + after) == 0
  {
    TrimSurrounded(before, NatToString(n), after);
    ParseU32OfWideNatToString(n);
  }

  /** Output that is not an optional '+' followed by digits, such as "12abc" or "1.5", reads as 0. */
  lemma NonNumberReadsZero(stdout: string, i: nat)
    requires i < |Trim(stdout)| && !IsDigit(Trim(stdout)[i]) && !(i == 0 && Trim(stdout)[0] == '+')
    ensures ParseCount(stdout) == 0
  {
    ParseU32OfNonNumber(Trim(stdout), i);
  }

  /** A count written with leading zeros, such as "007", reads as its value. */
  lemma LeadingZerosCount(before: string, zeros: string, n: u32, after: string)
    requires AllWhitespace(before) && AllWhitespace(after)
    requires forall i :: 0 <= i < |zeros| ==> zeros[i] == '0'
    ensures ParseCount(before + (zeros + NatToString(n)) + after) == n
  {
    var digits := zeros + NatToString(n);
    assert !IsWhitespace(digits[0]) && !IsWhitespace(digits[|digits| - 1]);
    TrimSurrounded(before, digits, after);
    ParseU32OfPaddedNatToString(zeros, n);
  }

  /** "true" in any letter case, with any surrounding whitespace, turns do-not-disturb on. */
  lemma DndIgnoresCaseAndWhitespace(before: string, word: string, after: string)
    requires AllWhitespace(before) && AllWhitespace(after)
    requires |word| == 4 && forall i :: 0 <= i < 4 ==> AsciiLowerChar(word[i]) == "true"[i]
    ensures ParseDnd(before + word + after)
  {
    assert !IsWhitespace(word[0]) && !IsWhitespace(word[3]);
    TrimSurrounded(before, word, after);
    assert AsciiLower(word) == "true";
  }

  /** Any other visible word, such as "false", leaves it off. */
  lemma DndOffForOtherWords(before: string, word: string, after: string)
    requires AllWhitespace(before) && AllWhitespace(after)
    requires word != [] && !IsWhitespace(word[0]) && !IsWhitespace(word[|word| - 1])
    requires AsciiLower(word) != "true"
    ensures !ParseDnd(before + word + after)
  {
    TrimSurrounded(before, word, after);
  }

  /** Do-not-disturb never changes the icon. */
  lemma IconIgnoresDnd(count: u32)
    ensures IconForStatus(NotificationStatus(count, true)) == IconForStatus(NotificationStatus(count, false))
  {
  }

  /** Two digit strings each followed by a non-digit that form the same text are equal. */
  lemma SameDigitRun(x: string, s1: string, y: string, s2: string)
    requires AllDigits(x) && AllDigits(y)
    requires s1 != [] && s2 != [] && !IsDigit(s1[0]) && !IsDigit(s2[0])
    requires x + s1 == y + s2
    ensures x == y
  {
    assert x == (x + s1)[..|x|];
    assert y == (y + s2)[..|y|];
  }

  /** The tooltip names the count: different counts never share a tooltip. */
  lemma TooltipDeterminesCount(a: NotificationStatus, b: NotificationStatus)
    requires TooltipForStatus(a) == TooltipForStatus(b)
    ensures a.count == b.count
  {
    var t := TooltipForStatus(a);
    if a.count > 0 && b.count > 0 {
      var na, nb := NatToString(a.count), NatToString(b.count);
      assert t == na + t[|na|..] && t == nb + t[|nb|..];
      SameDigitRun(na, t[|na|..], nb, t[|nb|..]);
      NatToStringInjective(a.count, b.count);
    }
  }
}
