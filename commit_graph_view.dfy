/**
 * The pure rules of src/components/detail/CommitGraph.tsx and the geometry of
 * src/components/detail/graph/GraphSvg.tsx: relative dates, ref badges, the drop
 * guard and the width reserved for the lanes.
 */
module CommitGraphView {
  import opened Wrappers
  import opened Models
  import opened Text
  import opened ComputeGraph

  // ---------------------------------------------------------------------------
  // Relative dates

  const MinuteMs := 60000
  const HourMs := 60 * MinuteMs
  const DayMs := 24 * HourMs
  const MonthMs := 30 * DayMs
  const YearMs := 12 * MonthMs

  /** The bucket `formatRelative` puts an age in, with the count it prints. */
  datatype Relative = JustNow | Minutes(n: nat) | Hours(n: nat) | Days(n: nat) | Months(n: nat) | Years(n: nat)

  /** Euclidean division agrees with the floor of the quotient, so `x / q` is `Math.floor(x / q)` for q > 0. */
  lemma DivUnique(x: int, q: int, d: int, r: int)
    requires q > 0 && 0 <= r < q && x == d * q + r
    ensures x / q == d
  {
    var d2, r2 := x / q, x % q;
    assert x == d2 * q + r2 && 0 <= r2 < q;
    if d2 < d {
      MulAtLeast(d - d2, q);
    } else if d < d2 {
      MulAtLeast(d2 - d, q);
    }
  }

  lemma MulAtLeast(k: int, q: int)
    requires k >= 1 && q > 0
    ensures k * q >= q
  {
  }

  /** Dividing twice by positive numbers is dividing once by their product. */
  lemma DivDiv(x: int, a: int, b: int)
    requires a > 0 && b > 0
    ensures (x / a) / b == x / (a * b)
  {
    var q, r := x / (a * b), x % (a * b);
    var r1, r0 := r / a, r % a;
    QuotientBelow(r, a, b);
    Regroup(q, b, r1, a, r0);
    DivUnique(x, a, q * b + r1, r0);
    DivUnique(x / a, b, q, r1);
  }

  lemma QuotientBelow(r: int, a: int, b: int)
    requires a > 0 && b > 0 && 0 <= r < a * b
    ensures 0 <= r / a < b
  {
    var r1, r0 := r / a, r % a;
    assert r == r1 * a + r0 && 0 <= r0 < a;
    if r1 >= b {
      MulMonotone(b, r1, a);
    }
  }

  lemma MulMonotone(k: int, l: int, a: int)
    requires k <= l && a > 0
    ensures k * a <= l * a
  {
  }

  lemma Regroup(q: int, b: int, r1: int, a: int, r0: int)
    ensures (q * b + r1) * a + r0 == q * (a * b) + (r1 * a + r0)
  {
  }

  /**
   * The chain of floors in `formatRelative` (lines 144-154), for an age of `diff`
   * milliseconds; negative ages (dates in the future) count as "just now".
   */
  function Classify(diff: int): (r: Relative)
    ensures r == JustNow <==> diff < MinuteMs
    ensures r.Minutes? <==> MinuteMs <= diff < HourMs
    ensures r.Hours? <==> HourMs <= diff < DayMs
    ensures r.Days? <==> DayMs <= diff < MonthMs
    ensures r.Months? <==> MonthMs <= diff < YearMs
    ensures r.Years? <==> YearMs <= diff
    ensures r.Minutes? ==> r.n == diff / MinuteMs
    ensures r.Hours? ==> r.n == diff / HourMs
    ensures r.Days? ==> r.n == diff / DayMs
    ensures r.Months? ==> r.n == diff / MonthMs
    ensures r.Years? ==> r.n == diff / YearMs
  {
    var mins := diff / 60000;
    DivDiv(diff, 60000, 60);
    DivDiv(diff, HourMs, 24);
    DivDiv(diff, DayMs, 30);
    DivDiv(diff, MonthMs, 12);
    if mins < 1 then JustNow
    else if mins < 60 then Minutes(mins)
    else
      var hours := mins / 60;
      if hours < 24 then Hours(hours)
      else
        var days := hours / 24;
        if days < 30 then Days(days)
        else
          var months := days / 30;
          if months < 12 then Months(months)
          else Years(months / 12)
  }

  /** The counts are at least one and stay below the next unit. */
  lemma ClassifyCounts(diff: int)
    ensures var r := Classify(diff);
      && (!r.JustNow? ==> r.n >= 1)
      && (r.Minutes? ==> r.n < 60) && (r.Hours? ==> r.n < 24)
      && (r.Days? ==> r.n < 30) && (r.Months? ==> r.n < 12)
  {
  }

  /** The rank of a bucket, from "just now" up to years. */
  function Rank(r: Relative): nat
  {
    match r
    case JustNow => 0
    case Minutes(_) => 1
    case Hours(_) => 2
    case Days(_) => 3
    case Months(_) => 4
    case Years(_) => 5
  }

  /** An older date never lands in a finer bucket, nor shows a smaller count in the same one. */
  lemma ClassifyMonotone(d1: int, d2: int)
    requires d1 <= d2
    ensures Rank(Classify(d1)) <= Rank(Classify(d2))
    ensures Rank(Classify(d1)) == Rank(Classify(d2)) && !Classify(d1).JustNow? ==> Classify(d1).n <= Classify(d2).n
  {
    var r1, r2 := Classify(d1), Classify(d2);
    if Rank(r1) == Rank(r2) && !r1.JustNow? {
      var u := if r1.Minutes? then MinuteMs else if r1.Hours? then HourMs else if r1.Days? then DayMs
        else if r1.Months? then MonthMs else YearMs;
      DivMonotone(d1, d2, u);
    }
  }

  lemma DivMonotone(x: int, y: int, q: int)
    requires x <= y && q > 0
    ensures x / q <= y / q
  {
    var a, b := x / q, y / q;
    assert x == a * q + x % q && y == b * q + y % q;
    if a > b {
      MulAtLeast(a - b, q);
    }
  }

  /** The unit suffix printed after the count. */
  function Unit(r: Relative): string
  {
    match r
    case JustNow => ""
    case Minutes(_) => "m ago"
    case Hours(_) => "h ago"
    case Days(_) => "d ago"
    case Months(_) => "mo ago"
    case Years(_) => "y ago"
  }

  /** The text of a bucket. */
  function Render(r: Relative): string
  {
    if r.JustNow? then "just now" else Decimal(r.n) + Unit(r)
  }

  /** `formatRelative` of CommitGraph.tsx, for an age of `diff` milliseconds. */
  function FormatRelative(diff: int): (s: string)
    ensures s == "just now" <==> diff < MinuteMs
    ensures MinuteMs <= diff < HourMs ==> s == Decimal(diff / MinuteMs) + "m ago"
    ensures HourMs <= diff < DayMs ==> s == Decimal(diff / HourMs) + "h ago"
    ensures DayMs <= diff < MonthMs ==> s == Decimal(diff / DayMs) + "d ago"
    ensures MonthMs <= diff < YearMs ==> s == Decimal(diff / MonthMs) + "mo ago"
    ensures YearMs <= diff ==> s == Decimal(diff / YearMs) + "y ago"
  {
    var r := Classify(diff);
    assert !r.JustNow? ==> Render(r)[0] == Decimal(r.n)[0];
    Render(r)
  }

  /** The printed text of a bucket other than "just now": the numeral, then a unit starting with a letter. */
  lemma RenderParts(r: Relative)
    requires !r.JustNow?
    ensures var k := |Decimal(r.n)|;
      && k < |Render(r)|
      && Render(r)[..k] == Decimal(r.n)
      && Render(r)[k..] == Unit(r)
      && !IsDigit(Render(r)[k])
      && IsDigit(Render(r)[0])
  {
    var k := |Decimal(r.n)|;
    assert Render(r)[k] == Unit(r)[0];
  }

  /** Two buckets print the same text exactly when they are the same bucket with the same count. */
  lemma {:induction false} RenderInjective(r1: Relative, r2: Relative)
    ensures Render(r1) == Render(r2) <==> r1 == r2
  {
    if Render(r1) == Render(r2) {
      if r1.JustNow? && !r2.JustNow? {
        RenderParts(r2);
      } else if !r1.JustNow? && r2.JustNow? {
        RenderParts(r1);
      } else if !r1.JustNow? && !r2.JustNow? {
        RenderParts(r1);
        RenderParts(r2);
        var s1, s2 := Decimal(r1.n), Decimal(r2.n);
        if |s1| < |s2| {
        } else if |s2| < |s1| {
        } else {
          DecimalInjective(r1.n, r2.n);
        }
      }
    }
  }


  // ---------------------------------------------------------------------------
  // Ref badges

  /** The badge background and text classes of a ref kind. */
  datatype BadgeColors = BadgeColors(bg: string, text: string)

  /** `REF_COLORS` (lines 13-18). */
  const RefColorTable: map<string, BadgeColors> := map[
    "head" := BadgeColors("bg-green-600", "text-white"),
    "local" := BadgeColors("bg-blue-600", "text-white"),
    "remote" := BadgeColors("bg-slate-600", "text-slate-200"),
    "tag" := BadgeColors("bg-amber-600", "text-white")]

  /** The colours of a badge (line 119): its kind's entry, or the local colours for a kind the table lacks. */
  function RefColors(kind: string): (c: BadgeColors)
    ensures kind in RefColorTable ==> c == RefColorTable[kind]
    ensures kind !in RefColorTable ==> c == RefColorTable["local"]
    ensures c in RefColorTable.Values
  {
    if kind in RefColorTable then RefColorTable[kind] else RefColorTable["local"]
  }

  /** Every kind the backend sends has its own entry, and the four entries differ. */
  lemma EveryKindHasColors(k: RefKind)
    ensures KindName(k) in RefColorTable
    ensures forall k2: RefKind :: k2 != k ==> RefColors(KindName(k2)) != RefColors(KindName(k))
  {
  }

  /** The text of a badge (lines 120-122): the head ref reads "HEAD → name", any other the bare name. */
  function BadgeText(badge: RefLabel): (s: string)
    ensures badge.kind == Head ==> s == "HEAD \U{2192} " + badge.name
    ensures badge.kind != Head ==> s == badge.name
    ensures badge.name <= s || s[|s| - |badge.name|..] == badge.name
  {
    if KindName(badge.kind) == "head" then "HEAD \U{2192} " + badge.name else badge.name
  }

  /** A badge can be dragged (line 129) when its kind is local or remote. */
  function IsDraggable(kind: string): (b: bool)
    ensures b <==> kind in {"local", "remote"}
  {
    kind == "local" || kind == "remote"
  }

  /** Exactly branch refs can be dragged: never the head ref or a tag. */
  lemma DraggableKinds(k: RefKind)
    ensures IsDraggable(KindName(k)) <==> k == Local || k == Remote
  {
  }

  /** What a drag carries (line 125): the ref name, when the badge can be dragged. */
  function DragPayload(badge: RefLabel): (p: Option<string>)
    ensures p.Some? <==> badge.kind in {Local, Remote}
    ensures p.Some? ==> p.value == badge.name
  {
    DraggableKinds(badge.kind);
    if IsDraggable(KindName(badge.kind)) then Some(badge.name) else None
  }

  /**
   * `handleDrop` (lines 38-47): the merge request (source branch, target commit) it
   * makes, if any. `hasCallback` says whether a merge callback was supplied.
   */
  function HandleDrop(sourceBranch: string, hasCallback: bool, targetOid: string): (call: Option<(string, string)>)
    ensures call.Some? <==> sourceBranch != "" && hasCallback
    ensures call.Some? ==> call.value == (sourceBranch, targetOid)
  {
    if sourceBranch != "" && hasCallback then Some((sourceBranch, targetOid)) else None
  }

  /** Dropping a dragged badge asks to merge exactly that branch into the target, given a callback and a non-empty name. */
  lemma DragThenDrop(badge: RefLabel, targetOid: string)
    requires DragPayload(badge).Some?
    ensures HandleDrop(DragPayload(badge).value, true, targetOid) == if badge.name == "" then None else Some((badge.name, targetOid))
    ensures HandleDrop(DragPayload(badge).value, false, targetOid) == None
  {
  }

  // ---------------------------------------------------------------------------
  // Geometry

  const LeftPad := 10
  const LaneWidth := 16
  const NodeRadius := 4

  /** The width reserved for the graph (line 31). */
  function GraphWidth(laneCount: nat): nat
  {
    LeftPad + laneCount * LaneWidth + 12
  }

  /** The horizontal centre of a lane in GraphSvg.tsx (line 21). */
  function Cx(lane: nat): nat
  {
    LeftPad + lane * LaneWidth + LaneWidth / 2
  }

  /** The drawing surface of GraphSvg.tsx (line 18): the width it is given, widened to fit the lanes. */
  function SvgWidth(width: nat, laneCount: nat): (w: nat)
    ensures w >= width && w >= LeftPad + laneCount * LaneWidth + 8
    ensures w == width || w == LeftPad + laneCount * LaneWidth + 8
  {
    if width > LeftPad + laneCount * LaneWidth + 8 then width else LeftPad + laneCount * LaneWidth + 8
  }

  /** Given the width the commit graph reserves, the drawing surface keeps exactly that width. */
  lemma SvgWidthIsGraphWidth(laneCount: nat)
    ensures SvgWidth(GraphWidth(laneCount), laneCount) == GraphWidth(laneCount)
  {
  }

  /** Every node of a layout, circle included, lies inside the reserved width. */
  lemma NodesInsideGraph(commits: seq<CommitInfo>)
    ensures var (nodes, laneCount) := Layout(commits);
      forall i :: 0 <= i < |nodes| ==> Cx(nodes[i].lane) + NodeRadius <= GraphWidth(laneCount) - LaneWidth / 2
  {
    var (nodes, laneCount) := Layout(commits);
    forall i | 0 <= i < |nodes|
      ensures Cx(nodes[i].lane) + NodeRadius <= GraphWidth(laneCount) - LaneWidth / 2
    {
      var l := nodes[i].lane;
      assert l + 1 <= laneCount;
      assert l * LaneWidth + LaneWidth <= laneCount * LaneWidth;
    }
  }
}
