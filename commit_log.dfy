/**
 * The pure helpers of src/components/detail/CommitLog.tsx: its own copy of
 * `formatRelative` and the first line of a commit message shown in each row.
 */
module CommitLog {
  import opened Text
  import CommitGraphView

  /**
   * `formatRelative` of CommitLog.tsx, written as the source writes it: a chain of
   * floored divisions with an early return per bucket, for an age of `diff` milliseconds.
   */
  function FormatRelative(diff: int): (s: string)
    ensures diff < 60000 ==> s == "just now"
    ensures 60000 <= diff ==> |s| > 0 && IsDigit(s[0])
  {
    var mins := diff / 60000;
    if mins < 1 then "just now"
    else if mins < 60 then Decimal(mins) + "m ago"
    else
      var hours := mins / 60;
      if hours < 24 then Decimal(hours) + "h ago"
      else
        var days := hours / 24;
        if days < 30 then Decimal(days) + "d ago"
        else
          var months := days / 30;
          if months < 12 then Decimal(months) + "mo ago"
          else Decimal(months / 12) + "y ago"
  }

  /** The two copies of `formatRelative` print the same text for every age. */
  lemma AgreesWithCommitGraph(diff: int)
    ensures FormatRelative(diff) == CommitGraphView.FormatRelative(diff)
  {
    CommitGraphView.DivDiv(diff, 60000, 60);
    CommitGraphView.DivDiv(diff, CommitGraphView.HourMs, 24);
    CommitGraphView.DivDiv(diff, CommitGraphView.DayMs, 30);
    CommitGraphView.DivDiv(diff, CommitGraphView.MonthMs, 12);
  }

  /** `message.split("\n")[0]`: the text before the first line feed. */
  function FirstLine(message: string): (line: string)
    ensures line <= message
    ensures forall i :: 0 <= i < |line| ==> line[i] != '\n'
    ensures |line| < |message| ==> message[|line|] == '\n'
  {
    if message == [] || message[0] == '\n' then []
    else [message[0]] + FirstLine(message[1..])
  }

  /** A message without a line feed is shown whole. */
  lemma {:induction false} SingleLineShownWhole(message: string)
    requires forall i :: 0 <= i < |message| ==> message[i] != '\n'
    ensures FirstLine(message) == message
  {
    if message != [] {
      SingleLineShownWhole(message[1..]);
    }
  }
}
