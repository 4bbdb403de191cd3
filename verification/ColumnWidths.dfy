/** Sharing a terminal's width between the title and detail columns of the task table. */
module ColumnWidths {
  import opened Options

  const TITLE := 0
  const DETAIL := 1
  const TITLE_FLOOR := 12
  const DETAIL_FLOOR := 10
  const MIN_TITLE := 30
  const MIN_DETAIL := 24

  function Min(a: int, b: int): int {
    if a <= b then a else b
  }

  function Max(a: int, b: int): int {
    if a <= b then b else a
  }

  ghost predicate Pair(w: seq<int>) {
    |w| == 2 && w[TITLE] >= 1 && w[DETAIL] >= 1
  }

  function Sum(w: seq<int>): int
    requires |w| == 2
  {
    w[TITLE] + w[DETAIL]
  }

  /** Where the shrinking ends, written without its steps: each column keeps what the
      other leaves it, the detail column giving way first, then the title column, and
      under both floors the wider column (the title one at a tie) down to a single cell
      before the other gives up any. */
  function Shrunk(target: int, title: int, detail: int): seq<int> {
    var titleFloor, detailFloor := Min(title, TITLE_FLOOR), Min(detail, DETAIL_FLOOR);
    if title + detail <= target then [title, detail]
    else if title + detailFloor <= target then [title, target - title]
    else if titleFloor + detailFloor <= target then [target - detailFloor, detailFloor]
    else Narrowed(target, titleFloor, detailFloor)
  }

  /** The wider column down to a single cell before the other gives up any. */
  function Narrowed(target: int, title: int, detail: int): seq<int> {
    if title + detail <= target then [title, detail]
    else if title >= detail then if detail < target then [target - detail, detail] else [1, target - 1]
    else if title < target then [title, target - title] else [target - 1, 1]
  }

  /** The same by its priorities.  Nothing is given up that fits; the title column gives
      only once the detail column is at its floor; below a floor only once both are there;
      and then the column with the lower floor gives only once the other is a single cell,
      the title counting as the other at a tie. */
  ghost predicate Yields(target: int, title: int, detail: int, w: seq<int>) {
    && |w| == 2 && 1 <= w[TITLE] <= title && 1 <= w[DETAIL] <= detail
    && w[TITLE] + w[DETAIL] == Min(title + detail, target)
    && (w[TITLE] < title ==> w[DETAIL] <= 10)
    && (w[TITLE] < Min(title, 12) || w[DETAIL] < Min(detail, 10) ==> w[TITLE] <= 12 && w[DETAIL] <= 10)
    && (Min(title, 12) >= Min(detail, 10) && w[DETAIL] < Min(detail, 10) ==> w[TITLE] == 1)
    && (Min(title, 12) < Min(detail, 10) && w[TITLE] < Min(title, 12) ==> w[DETAIL] == 1)
  }

  /** Only one pair of widths has those priorities. */
  lemma ShrunkExact(target: int, title: int, detail: int, w: seq<int>)
    requires target >= 3 && title >= 1 && detail >= 1
    ensures w == Shrunk(target, title, detail) <==> Yields(target, title, detail, w)
  {
  }

  /** Shrinks the preferred minimums to what is available: the detail column down to its
      floor, then the title column to its own, then whichever is wider.  Nothing is given
      up that fits: the result is the preferred sum or exactly the target. */
  method MinimumsFor(available: int, preferred: seq<int>) returns (w: seq<int>)
    requires Pair(preferred)
    ensures w == Shrunk(Max(3, available), preferred[TITLE], preferred[DETAIL])
    ensures Yields(Max(3, available), preferred[TITLE], preferred[DETAIL], w)
    ensures Pair(w) && w[TITLE] <= preferred[TITLE] && w[DETAIL] <= preferred[DETAIL]
    ensures Sum(w) == Min(Sum(preferred), Max(3, available))
  {
    w := preferred;
    var target := Max(3, available);
    if Sum(w) > target {
      var floor := Min(w[DETAIL], DETAIL_FLOOR);
      w := w[DETAIL := w[DETAIL] - Min(w[DETAIL] - floor, Sum(w) - target)];
      if Sum(w) > target {
        floor := Min(w[TITLE], TITLE_FLOOR);
        w := w[TITLE := w[TITLE] - Min(w[TITLE] - floor, Sum(w) - target)];
      }
    }
    w := Narrow(w, target);
    ShrunkExact(target, preferred[TITLE], preferred[DETAIL], w);
  }

  /** The last resort: the wider column, whichever it is by then, until the pair fits. */
  method Narrow(start: seq<int>, target: int) returns (w: seq<int>)
    requires Pair(start) && target >= 3
    ensures w == Narrowed(target, start[TITLE], start[DETAIL])
  {
    w := start;
    while Sum(w) > target
      invariant Pair(w) && w[TITLE] <= start[TITLE] && w[DETAIL] <= start[DETAIL]
      invariant w == start || (Sum(w) == target && w == Narrowed(target, start[TITLE], start[DETAIL]))
                || w == (if start[TITLE] >= start[DETAIL] then [1, start[DETAIL]] else [start[TITLE], 1])
      invariant Sum(w) >= Min(Sum(start), target)
      decreases Sum(w)
    {
      if w[TITLE] <= 1 && w[DETAIL] <= 1 { break; }
      var widest := if w[TITLE] > 1 && (w[DETAIL] <= 1 || w[TITLE] >= w[DETAIL]) then TITLE else DETAIL;
      w := w[widest := w[widest] - Min(w[widest] - 1, Sum(w) - target)];
    }
  }

  /** What one turn offers a column out of `extra` spare cells. */
  function Turn(extra: int): int {
    if extra / 4 == 0 then 1 else extra / 4
  }

  /** A column took its turn: no more than offered, and all of it if it wants more still. */
  ghost predicate Offered(before: int, after: int, desired: int, extra: int) {
    && 0 <= after - before <= Turn(extra)
    && (after < desired ==> after - before == Turn(extra))
  }

  /** Neither column runs ahead while the other still wants more. */
  ghost predicate Fair(w: seq<int>, minimums: seq<int>, desired: seq<int>, over: int)
    requires |w| == |minimums| == |desired| == 2
  {
    var title, detail := w[TITLE] - minimums[TITLE], w[DETAIL] - minimums[DETAIL];
    && (w[TITLE] < desired[TITLE] ==> detail <= title)
    && (w[DETAIL] < desired[DETAIL] ==> title <= 2 * detail + over)
  }

  /** What a round leaves: both columns took their turn, or the last cell went to the title. */
  ghost predicate Dealt(start: seq<int>, w: seq<int>, desired: seq<int>, extra: int)
    requires |start| == |w| == |desired| == 2
  {
    var gain := w[TITLE] - start[TITLE];
    && Offered(start[TITLE], w[TITLE], desired[TITLE], extra)
    && if extra > gain then Offered(start[DETAIL], w[DETAIL], desired[DETAIL], extra - gain)
       else gain == 1 && w[DETAIL] == start[DETAIL]
  }

  lemma DealtIsFair(start: seq<int>, w: seq<int>, minimums: seq<int>, desired: seq<int>, extra: int)
    requires |start| == |w| == |minimums| == |desired| == 2
    requires Fair(start, minimums, desired, 0) && Dealt(start, w, desired, extra)
    ensures Fair(w, minimums, desired, if extra > w[TITLE] - start[TITLE] then 0 else 1)
  {
    var gain := w[TITLE] - start[TITLE];
    if extra > gain {
      assert Turn(extra - gain) <= Turn(extra);
      assert extra > 1 ==> Turn(extra) <= 2 * Turn(extra - Turn(extra));
    }
  }

  /** One round over the columns, title first. */
  method Deal(start: seq<int>, desired: seq<int>, before: int) returns (w: seq<int>, extra: int)
    requires |start| == |desired| == 2 && before > 0
    ensures |w| == 2 && Dealt(start, w, desired, before)
    ensures 0 <= extra && Sum(w) + extra == Sum(start) + before
    ensures w[TITLE] <= Max(start[TITLE], desired[TITLE]) && w[DETAIL] <= Max(start[DETAIL], desired[DETAIL])
    ensures extra == before ==> w == start && start[TITLE] >= desired[TITLE] && start[DETAIL] >= desired[DETAIL]
  {
    w, extra := start, before;
    for index := 0 to 2
      invariant |w| == 2 && 0 < extra && Sum(w) + extra == Sum(start) + before
      invariant w[TITLE] <= Max(start[TITLE], desired[TITLE]) && w[DETAIL] <= Max(start[DETAIL], desired[DETAIL])
      invariant index == 0 ==> w[TITLE] == start[TITLE]
      invariant index <= 1 ==> w[DETAIL] == start[DETAIL]
      invariant index > 0 ==> Offered(start[TITLE], w[TITLE], desired[TITLE], before)
      invariant index > 1 ==> Offered(start[DETAIL], w[DETAIL], desired[DETAIL], before - (w[TITLE] - start[TITLE]))
    {
      var capacity := Max(0, desired[index] - w[index]);
      if capacity > 0 {
        var share := Max(1, Min(capacity, Turn(extra)));
        w := w[index := w[index] + share];
        extra := extra - share;
        if extra <= 0 { break; }
      }
    }
  }

  /** Gives every spare cell to the columns in turn, none past its desired width, and
      what neither column wants to the detail column.  A title that still wants more has
      gained at least as much as the detail column, and a detail column that still wants
      more has gained at least half as much as the title, one cell apart. */
  method Distribute(available: int, minimums: seq<int>, desired: seq<int>) returns (w: seq<int>)
    requires |minimums| == 2 && |desired| == 2
    ensures |w| == 2 && w[TITLE] >= minimums[TITLE] && w[DETAIL] >= minimums[DETAIL]
    ensures Sum(w) == Max(available, Sum(minimums))
    ensures w[TITLE] <= Max(minimums[TITLE], desired[TITLE])
    ensures w[DETAIL] > Max(minimums[DETAIL], desired[DETAIL]) ==> w[TITLE] >= desired[TITLE]
    ensures Fair(w, minimums, desired, 1)
  {
    w := minimums;
    var extra := Max(0, available - Sum(w));
    while extra > 0
      invariant |w| == 2 && w[TITLE] >= minimums[TITLE] && w[DETAIL] >= minimums[DETAIL] && extra >= 0
      invariant Sum(w) + extra == Max(available, Sum(minimums))
      invariant w[TITLE] <= Max(minimums[TITLE], desired[TITLE])
      invariant w[DETAIL] > Max(minimums[DETAIL], desired[DETAIL]) ==> extra == 0 && w[TITLE] >= desired[TITLE]
      invariant Fair(w, minimums, desired, if extra == 0 then 1 else 0)
      decreases extra
    {
      var before := extra;
      ghost var start := w;
      w, extra := Deal(w, desired, before);
      DealtIsFair(start, w, minimums, desired, before);
      if extra == before {
        w := w[DETAIL := w[DETAIL] + extra];
        extra := 0;
        break;
      }
    }
  }

  /** The four column widths, in order model, title, status, detail, two cells apart.
      Without a terminal every column gets what its content needs.  When at least three
      cells remain beside the fixed columns the table is exactly as wide as the terminal;
      the title is never wider than its content needs. */
  method CompactWidths(terminal: Option<int>, model: nat, status: nat,
                       titleMin: int, titleWidth: int, detailMin: int, detailWidth: int)
    returns (widths: seq<int>)
    requires titleMin >= MIN_TITLE && detailMin >= MIN_DETAIL && titleWidth >= titleMin && detailWidth >= detailMin
    ensures |widths| == 4 && widths[0] == model && widths[2] == status
    ensures 1 <= widths[1] <= titleWidth && 1 <= widths[3]
    ensures terminal.None? ==> widths[1] == titleWidth && widths[3] == detailWidth
    ensures terminal.Some? ==> widths[1] + widths[3] == Max(3, terminal.value - (model + status + 6))
    ensures terminal.Some? && terminal.value - (model + status + 6) >= 3
            ==> widths[0] + widths[1] + widths[2] + widths[3] + 6 == terminal.value
    ensures widths[3] > detailWidth ==> widths[1] == titleWidth
  {
    widths := [model, titleWidth, status, detailWidth];
    if terminal.None? { return; }
    var fixed := model + status + (|widths| - 1) * 2;
    var available := Max(3, terminal.value - fixed);
    var minimums := MinimumsFor(available, [titleMin, detailMin]);
    var shares := Distribute(available, minimums, [titleWidth, detailWidth]);
    widths := widths[1 := shares[TITLE]][3 := shares[DETAIL]];
  }
}
