/**
 * The search-match layer of the PDF viewer (src/components/Pdf/lib/pdfSearchUtils.js).
 * `convertMatches` turns flat character indices over the concatenated text items of a page
 * into (item index, offset) positions with one forward-only cursor; `renderMatches` turns
 * those positions into the list of operations that rebuild the text divs with a tooltip
 * around each match. The DOM is abstracted as the sequence of strings the divs hold.
 */
module SearchUtils {
  import opened Wrappers

  /** A position in the text layer: item (div) index and offset inside it. */
  datatype TextPos = TextPos(divIdx: int, offset: int)

  datatype MatchRange = MatchRange(begin: TextPos, end: TextPos)

  /** The summed length of the first `n` text items. */
  function Prefix(items: seq<string>, n: nat): (r: nat)
    requires n <= |items|
  {
    if n == 0 then 0 else Prefix(items, n - 1) + |items[n - 1]|
  }

  lemma {:induction false} PrefixMonotone(items: seq<string>, a: nat, b: nat)
    requires a <= b <= |items|
    ensures Prefix(items, a) <= Prefix(items, b)
    decreases b - a
  {
    if a < b {
      PrefixMonotone(items, a, b - 1);
    }
  }

  /** The item boundary `j` counts as reached by `target`: at or before it, or strictly before it. */
  predicate Reached(items: seq<string>, j: nat, target: int, strict: bool)
    requires j <= |items|
  {
    if strict then Prefix(items, j) < target else Prefix(items, j) <= target
  }

  /**
   * `p` is where the cursor stops when it starts at item `from` and looks for `target`:
   * an item at or after `from`, not past the last one, whose start the target has reached
   * (unless the cursor did not move), and whose end the target has not reached (unless it is
   * the last item); the offset is the rest of the target. The begin of a match is looked for
   * with `strict == false` (a start exactly on a boundary moves on to the next item), the end
   * with `strict == true` (an end exactly on a boundary stays in the earlier item).
   */
  predicate CursorAt(items: seq<string>, from: int, target: int, strict: bool, p: TextPos) {
    && 0 <= from <= p.divIdx < |items|
    && Prefix(items, p.divIdx) + p.offset == target
    && (p.divIdx == from || Reached(items, p.divIdx, target, strict))
    && (p.divIdx == |items| - 1 || !Reached(items, p.divIdx + 1, target, strict))
  }

  /** The cursor stops at the LAST item from `from` on whose start the target has reached. */
  lemma {:induction false} CursorAtIsLastReached(items: seq<string>, from: int, target: int, strict: bool, p: TextPos, j: int)
    requires CursorAt(items, from, target, strict, p)
    requires from <= j < |items| && (j == from || Reached(items, j, target, strict))
    ensures j <= p.divIdx
  {
    if p.divIdx + 1 <= j {
      PrefixMonotone(items, p.divIdx + 1, j);
    }
  }

  /** There is exactly one place where the cursor can stop. */
  lemma {:induction false} CursorAtUnique(items: seq<string>, from: int, target: int, strict: bool, p: TextPos, q: TextPos)
    requires CursorAt(items, from, target, strict, p) && CursorAt(items, from, target, strict, q)
    ensures p == q
  {
    CursorAtIsLastReached(items, from, target, strict, p, q.divIdx);
    CursorAtIsLastReached(items, from, target, strict, q, p.divIdx);
  }

  /**
   * The boundary rule: a target exactly at the start of a non-empty item `j` (not the first
   * item the cursor may stop at) begins at offset 0 of item `j`, and ends at the full length
   * of a non-empty item `j - 1`.
   */
  lemma {:induction false} BoundaryAsymmetry(items: seq<string>, from: int, j: int, b: TextPos, e: TextPos)
    requires 0 <= from < j < |items|
    requires CursorAt(items, from, Prefix(items, j), false, b)
    requires CursorAt(items, from, Prefix(items, j), true, e)
    ensures |items[j]| > 0 ==> b == TextPos(j, 0)
    ensures |items[j - 1]| > 0 ==> e == TextPos(j - 1, |items[j - 1]|)
  {
    if |items[j]| > 0 {
      assert CursorAt(items, from, Prefix(items, j), false, TextPos(j, 0));
      CursorAtUnique(items, from, Prefix(items, j), false, b, TextPos(j, 0));
    }
    if |items[j - 1]| > 0 {
      var t := TextPos(j - 1, |items[j - 1]|);
      assert j - 1 == from || Reached(items, j - 1, Prefix(items, j), true);
      assert CursorAt(items, from, Prefix(items, j), true, t);
      CursorAtUnique(items, from, Prefix(items, j), true, e, t);
    }
  }

  /** Where the begin cursor of match `k` starts: where the previous match ended, or at item 0. */
  function StartOf(r: seq<MatchRange>, k: int): int
    requires 0 <= k <= |r|
  {
    if k == 0 then 0 else r[k - 1].end.divIdx
  }

  /** The range of one match: begin located from `start`, end located from the begin. */
  predicate RangeAt(items: seq<string>, queryLen: int, start: int, matchIdx: int, range: MatchRange) {
    && CursorAt(items, start, matchIdx, false, range.begin)
    && CursorAt(items, range.begin.divIdx, matchIdx + queryLen, true, range.end)
  }

  /** The first `|r|` matches are located, each from where the previous one ended. */
  predicate ConvertedUpTo(items: seq<string>, queryLen: int, ms: seq<int>, r: seq<MatchRange>) {
    && |r| <= |ms|
    && forall k {:trigger ms[k]} :: 0 <= k < |r| ==> RangeAt(items, queryLen, StartOf(r, k), ms[k], r[k])
  }

  /** Every match is located, each from where the previous one ended, begin and end. */
  predicate Converted(items: seq<string>, queryLen: int, ms: seq<int>, r: seq<MatchRange>) {
    |r| == |ms| && ConvertedUpTo(items, queryLen, ms, r)
  }

  lemma {:induction false} ConvertedUpToSnoc(items: seq<string>, queryLen: int, ms: seq<int>, r: seq<MatchRange>, x: MatchRange)
    requires ConvertedUpTo(items, queryLen, ms, r) && |r| < |ms|
    requires RangeAt(items, queryLen, StartOf(r, |r|), ms[|r|], x)
    ensures ConvertedUpTo(items, queryLen, ms, r + [x])
  {
    var r' := r + [x];
    forall k | 0 <= k < |r'| ensures RangeAt(items, queryLen, StartOf(r', k), ms[k], r'[k]) {
      if k < |r| {
        assert r'[k] == r[k] && StartOf(r', k) == StartOf(r, k);
      }
    }
  }

  /** Advances the cursor from item `i` while the target reaches the end of the current item. */
  method Advance(items: seq<string>, i0: int, iIndex0: int, target: int, strict: bool) returns (i: int, iIndex: int)
    requires 0 <= i0 < |items| && iIndex0 == Prefix(items, i0)
    ensures CursorAt(items, i0, target, strict, TextPos(i, target - iIndex))
    ensures iIndex == Prefix(items, i)
  {
    i, iIndex := i0, iIndex0;
    var end := |items| - 1;
    while i != end && (if strict then target > iIndex + |items[i]| else target >= iIndex + |items[i]|)
      invariant i0 <= i <= end
      invariant iIndex == Prefix(items, i)
      invariant i == i0 || Reached(items, i, target, strict)
      decreases end - i
    {
      iIndex := iIndex + |items[i]|;
      i := i + 1;
    }
  }

  /** One turn of the match loop: the begin cursor, then the end cursor from there. */
  method ConvertOne(items: seq<string>, queryLen: int, i0: int, iIndex0: int, matchIdx0: int)
    returns (range: MatchRange, i: int, iIndex: int)
    requires 0 <= i0 < |items| && iIndex0 == Prefix(items, i0)
    ensures RangeAt(items, queryLen, i0, matchIdx0, range)
    ensures i == range.end.divIdx && 0 <= i < |items| && iIndex == Prefix(items, i)
  {
    var matchIdx := matchIdx0;
    i, iIndex := Advance(items, i0, iIndex0, matchIdx, false);
    var begin := TextPos(i, matchIdx - iIndex);
    matchIdx := matchIdx + queryLen;
    i, iIndex := Advance(items, i, iIndex, matchIdx, true);
    var end := TextPos(i, matchIdx - iIndex);
    range := MatchRange(begin, end);
  }

  /**
   * `convertMatches`: no matches argument gives no ranges; otherwise one range per match, in
   * order, each found by the cursor that only moves forward. The cursor never leaves the
   * item list, so the "could not find a matching mapping" branch is never taken. A
   * non-empty match list needs a non-empty item list (the source reads the first item).
   */
  method ConvertMatches(queryLen: int, matches: Option<seq<int>>, items: seq<string>) returns (r: seq<MatchRange>)
    requires matches.Some? && matches.value != [] ==> items != []
    ensures matches.None? ==> r == []
    ensures matches.Some? ==> Converted(items, queryLen, matches.value, r)
  {
    if matches.None? {
      return [];
    }
    var ms := matches.value;
    var i := 0;
    var iIndex := 0;
    r := [];
    for m := 0 to |ms|
      invariant |r| == m && ConvertedUpTo(items, queryLen, ms, r)
      invariant i == StartOf(r, m)
      invariant ms != [] ==> 0 <= i < |items| && iIndex == Prefix(items, i)
    {
      var range;
      range, i, iIndex := ConvertOne(items, queryLen, i, iIndex, ms[m]);
      ConvertedUpToSnoc(items, queryLen, ms, r, range);
      r := r + [range];
    }
  }

  /** Item indices never decrease across the ranges: each begin is at or after the previous end. */
  lemma {:induction false} ConvertedMonotone(items: seq<string>, queryLen: int, ms: seq<int>, r: seq<MatchRange>, k: int)
    requires Converted(items, queryLen, ms, r) && 0 < k < |r|
    ensures r[k - 1].begin.divIdx <= r[k - 1].end.divIdx <= r[k].begin.divIdx <= r[k].end.divIdx < |items|
  {
    assert RangeAt(items, queryLen, StartOf(r, k - 1), ms[k - 1], r[k - 1]);
    assert RangeAt(items, queryLen, StartOf(r, k), ms[k], r[k]);
  }

  /** The converted ranges are determined by their specification: there is only one list of them. */
  lemma {:induction false} ConvertedUnique(items: seq<string>, queryLen: int, ms: seq<int>, r: seq<MatchRange>, t: seq<MatchRange>)
    requires Converted(items, queryLen, ms, r) && Converted(items, queryLen, ms, t)
    ensures r == t
  {
    forall k | 0 <= k < |r| ensures r[k] == t[k] {
      ConvertedEntryUnique(items, queryLen, ms, r, t, k);
    }
  }

  lemma {:induction false} ConvertedEntryUnique(items: seq<string>, queryLen: int, ms: seq<int>, r: seq<MatchRange>, t: seq<MatchRange>, k: int)
    requires Converted(items, queryLen, ms, r) && Converted(items, queryLen, ms, t)
    requires 0 <= k < |r|
    ensures r[k] == t[k]
    decreases k
  {
    if k > 0 {
      ConvertedEntryUnique(items, queryLen, ms, r, t, k - 1);
    }
    assert StartOf(r, k) == StartOf(t, k);
    assert RangeAt(items, queryLen, StartOf(r, k), ms[k], r[k]);
    assert RangeAt(items, queryLen, StartOf(r, k), ms[k], t[k]);
    CursorAtUnique(items, StartOf(r, k), ms[k], false, r[k].begin, t[k].begin);
    CursorAtUnique(items, r[k].begin.divIdx, ms[k] + queryLen, true, r[k].end, t[k].end);
  }

  // ---------------------------------------------------------------------------
  // renderMatches

  /**
   * One DOM step of `renderMatches`: empty a div, append a piece of its item text (`to`
   * absent means "to the end"), or append a piece wrapped in a tooltip span.
   */
  datatype RenderOp =
    | ClearDiv(divIdx: int)
    | AppendText(divIdx: int, from: int, to: Option<int>)
    | AppendTooltip(divIdx: int, from: int, to: Option<int>)

  /** The steps before a match: close the previous div and start a new one, or fill the gap. */
  function LeadIn(prevEnd: Option<TextPos>, m: MatchRange): seq<RenderOp> {
    if prevEnd.None? || m.begin.divIdx != prevEnd.value.divIdx then
      (if prevEnd.Some? then [AppendText(prevEnd.value.divIdx, prevEnd.value.offset, None)] else [])
      + [ClearDiv(m.begin.divIdx), AppendText(m.begin.divIdx, 0, Some(m.begin.offset))]
    else [AppendText(prevEnd.value.divIdx, prevEnd.value.offset, Some(m.begin.offset))]
  }

  /** The steps for one match: the lead-in, then the match in a tooltip inside its begin div. */
  function OpenMatch(prevEnd: Option<TextPos>, m: MatchRange): seq<RenderOp> {
    LeadIn(prevEnd, m) + [AppendTooltip(m.begin.divIdx, m.begin.offset, Some(m.end.offset))]
  }

  /** The steps for the remaining matches after `prevEnd`, and the tail of the last div. */
  function PlanFrom(prevEnd: Option<TextPos>, ms: seq<MatchRange>): seq<RenderOp>
    decreases ms
  {
    if ms == [] then
      (if prevEnd.Some? then [AppendText(prevEnd.value.divIdx, prevEnd.value.offset, None)] else [])
    else OpenMatch(prevEnd, ms[0]) + PlanFrom(Some(ms[0].end), ms[1..])
  }

  /** Everything `renderMatches` does to the text divs, in order. */
  function RenderPlan(ms: seq<MatchRange>): seq<RenderOp> {
    PlanFrom(None, ms)
  }

  /** One match of the plan taken off the front. */
  lemma {:induction false} PlanFromStep(plan: seq<RenderOp>, prevEnd: Option<TextPos>, ms: seq<MatchRange>, steps: seq<RenderOp>)
    requires ms != [] && steps == OpenMatch(prevEnd, ms[0])
    ensures plan + PlanFrom(prevEnd, ms) == (plan + steps) + PlanFrom(Some(ms[0].end), ms[1..])
  {
    assert PlanFrom(prevEnd, ms) == steps + PlanFrom(Some(ms[0].end), ms[1..]);
  }

  /**
   * `renderMatches` with the DOM replaced by the list of steps it performs: nothing for no
   * matches; otherwise, per match, the text before it (a new div is first emptied) and the
   * match in a tooltip, and finally the tail of the last div.
   */
  method RenderMatches(matches: seq<MatchRange>) returns (plan: seq<RenderOp>)
    ensures plan == RenderPlan(matches)
  {
    plan := [];
    if |matches| == 0 {
      return;
    }
    var prevEnd: Option<TextPos> := None;
    for i := 0 to |matches|
      invariant prevEnd == (if i == 0 then None else Some(matches[i - 1].end))
      invariant plan + PlanFrom(prevEnd, matches[i..]) == RenderPlan(matches)
    {
      var match_ := matches[i];
      var begin, end := match_.begin, match_.end;
      assert matches[i..][1..] == matches[i + 1..];
      var lead: seq<RenderOp>;
      if prevEnd.None? || begin.divIdx != prevEnd.value.divIdx {
        lead := if prevEnd.Some? then [AppendText(prevEnd.value.divIdx, prevEnd.value.offset, None)] else [];
        lead := lead + [ClearDiv(begin.divIdx), AppendText(begin.divIdx, 0, Some(begin.offset))];
      } else {
        lead := [AppendText(prevEnd.value.divIdx, prevEnd.value.offset, Some(begin.offset))];
      }
      assert lead == LeadIn(prevEnd, match_);
      var steps := lead + [AppendTooltip(begin.divIdx, begin.offset, Some(end.offset))];
      PlanFromStep(plan, prevEnd, matches[i..], steps);
      plan := plan + steps;
      prevEnd := Some(end);
    }
    assert matches[|matches|..] == [];
    if prevEnd.Some? {
      plan := plan + [AppendText(prevEnd.value.divIdx, prevEnd.value.offset, None)];
    }
  }

  /** The tooltip steps of a plan, in order. */
  function Tooltips(ops: seq<RenderOp>): seq<RenderOp> {
    if ops == [] then []
    else (if ops[0].AppendTooltip? then [ops[0]] else []) + Tooltips(ops[1..])
  }

  lemma {:induction false} TooltipsAppend(a: seq<RenderOp>, b: seq<RenderOp>)
    ensures Tooltips(a + b) == Tooltips(a) + Tooltips(b)
  {
    if a == [] {
      assert a + b == b;
    } else {
      assert (a + b)[1..] == a[1..] + b;
      TooltipsAppend(a[1..], b);
    }
  }

  /** The tooltip each match gets, from its begin offset to its end offset, in its begin div. */
  function MatchTooltips(ms: seq<MatchRange>): (r: seq<RenderOp>)
    ensures |r| == |ms|
    ensures forall k :: 0 <= k < |ms| ==>
      r[k] == AppendTooltip(ms[k].begin.divIdx, ms[k].begin.offset, Some(ms[k].end.offset))
  {
    if ms == [] then []
    else [AppendTooltip(ms[0].begin.divIdx, ms[0].begin.offset, Some(ms[0].end.offset))] + MatchTooltips(ms[1..])
  }

  /** Exactly one tooltip per match, in match order; no matches, no steps at all. */
  lemma {:induction false} RenderTooltips(ms: seq<MatchRange>)
    ensures Tooltips(RenderPlan(ms)) == MatchTooltips(ms)
    ensures ms == [] <==> RenderPlan(ms) == []
  {
    PlanTooltips(None, ms);
    if ms != [] {
      assert RenderPlan(ms)[0] == ClearDiv(ms[0].begin.divIdx);
    }
  }

  lemma {:induction false} PlanTooltips(prevEnd: Option<TextPos>, ms: seq<MatchRange>)
    ensures Tooltips(PlanFrom(prevEnd, ms)) == MatchTooltips(ms)
    decreases ms
  {
    if ms != [] {
      var open := OpenMatch(prevEnd, ms[0]);
      var rest := PlanFrom(Some(ms[0].end), ms[1..]);
      assert PlanFrom(prevEnd, ms) == open + rest;
      OpenMatchTooltip(prevEnd, ms[0]);
      TooltipsAppend(open, rest);
      PlanTooltips(Some(ms[0].end), ms[1..]);
      assert MatchTooltips(ms) == Tooltips(open) + MatchTooltips(ms[1..]);
    }
  }

  /** One match opens exactly one tooltip. */
  lemma {:induction false} OpenMatchTooltip(prevEnd: Option<TextPos>, m: MatchRange)
    ensures Tooltips(OpenMatch(prevEnd, m)) == [AppendTooltip(m.begin.divIdx, m.begin.offset, Some(m.end.offset))]
  {
    var t := AppendTooltip(m.begin.divIdx, m.begin.offset, Some(m.end.offset));
    var head := LeadIn(prevEnd, m);
    TooltipsNone(head);
    TooltipsAppend(head, [t]);
    assert Tooltips([t]) == [t] by { assert [t][1..] == []; }
  }

  lemma {:induction false} TooltipsNone(ops: seq<RenderOp>)
    requires forall i :: 0 <= i < |ops| ==> !ops[i].AppendTooltip?
    ensures Tooltips(ops) == []
  {
    if ops != [] {
      TooltipsNone(ops[1..]);
    }
  }

  // ---------------------------------------------------------------------------
  // What the text divs hold after a plan

  /** `String.prototype.substring(from, to)`: both ends clamped to the string, swapped when reversed. */
  function Substring(s: string, from: int, to: Option<int>): (r: string)
    ensures |r| <= |s|
  {
    var a := if from < 0 then 0 else if from > |s| then |s| else from;
    var b := if to.None? || to.value > |s| then |s| else if to.value < 0 then 0 else to.value;
    if a <= b then s[a..b] else s[b..a]
  }

  /** One step on the div contents; `items` are the text items the pieces are cut from. */
  function ApplyOp(divs: seq<string>, items: seq<string>, op: RenderOp): (r: seq<string>)
    requires |divs| == |items|
    ensures |r| == |items|
  {
    match op
    case ClearDiv(d) => if 0 <= d < |divs| then divs[d := ""] else divs
    case AppendText(d, from, to) =>
      if 0 <= d < |divs| then divs[d := divs[d] + Substring(items[d], from, to)] else divs
    case AppendTooltip(d, from, to) =>
      if 0 <= d < |divs| then divs[d := divs[d] + Substring(items[d], from, to)] else divs
  }

  /** The div contents after the steps, in order. */
  function Apply(divs: seq<string>, items: seq<string>, ops: seq<RenderOp>): (r: seq<string>)
    requires |divs| == |items|
    ensures |r| == |items|
    decreases ops
  {
    if ops == [] then divs else Apply(ApplyOp(divs, items, ops[0]), items, ops[1..])
  }

  lemma {:induction false} ApplyAppend(divs: seq<string>, items: seq<string>, a: seq<RenderOp>, b: seq<RenderOp>)
    requires |divs| == |items|
    ensures Apply(divs, items, a + b) == Apply(Apply(divs, items, a), items, b)
    decreases a
  {
    if a == [] {
      assert a + b == b;
    } else {
      assert (a + b)[1..] == a[1..] + b;
      ApplyAppend(ApplyOp(divs, items, a[0]), items, a[1..], b);
    }
  }

  /** The matches `renderMatches` can draw: offsets inside their items, begin not after end. */
  predicate RangeInText(items: seq<string>, m: MatchRange) {
    && 0 <= m.begin.divIdx <= m.end.divIdx < |items|
    && 0 <= m.begin.offset <= |items[m.begin.divIdx]|
    && 0 <= m.end.offset <= |items[m.end.divIdx]|
    && (m.begin.divIdx == m.end.divIdx ==> m.begin.offset <= m.end.offset)
  }

  /** Every match can be drawn and does not start before the previous one ended in the same div. */
  predicate Drawable(items: seq<string>, prevEnd: Option<TextPos>, ms: seq<MatchRange>)
    decreases ms
  {
    ms == [] ||
    (&& RangeInText(items, ms[0])
     && (prevEnd.Some? && prevEnd.value.divIdx == ms[0].begin.divIdx ==> prevEnd.value.offset <= ms[0].begin.offset)
     && Drawable(items, Some(ms[0].end), ms[1..]))
  }

  /** The divs hold their items, except div `p.divIdx`, which holds its item up to `p.offset`. */
  predicate DrawnUpTo(divs: seq<string>, items: seq<string>, p: TextPos) {
    && |divs| == |items|
    && 0 <= p.divIdx < |items| && 0 <= p.offset <= |items[p.divIdx]|
    && divs[p.divIdx] == items[p.divIdx][..p.offset]
    && forall d :: 0 <= d < |items| && d != p.divIdx ==> divs[d] == items[d]
  }

  lemma SubstringExtends(s: string, i: int, j: int)
    requires 0 <= i <= j <= |s|
    ensures s[..i] + Substring(s, i, Some(j)) == s[..j]
    ensures s[..i] + Substring(s, i, None) == s
  {
    assert s[..i] + s[i..j] == s[..j];
    assert s[..i] + s[i..] == s;
  }

  /** Appending the piece up to `off` of the drawn div moves the drawn point to `off`. */
  lemma {:induction false} ExtendDiv(divs: seq<string>, items: seq<string>, p: TextPos, off: int, tooltip: bool)
    requires DrawnUpTo(divs, items, p) && p.offset <= off <= |items[p.divIdx]|
    ensures DrawnUpTo(ApplyOp(divs, items,
      if tooltip then AppendTooltip(p.divIdx, p.offset, Some(off)) else AppendText(p.divIdx, p.offset, Some(off))),
      items, TextPos(p.divIdx, off))
  {
    SubstringExtends(items[p.divIdx], p.offset, off);
  }

  lemma {:induction false} ApplyTwo(divs: seq<string>, items: seq<string>, a: RenderOp, b: RenderOp)
    requires |divs| == |items|
    ensures Apply(divs, items, [a, b]) == ApplyOp(ApplyOp(divs, items, a), items, b)
  {
    assert [a, b][1..] == [b];
    var d1 := ApplyOp(divs, items, a);
    assert Apply(divs, items, [a, b]) == Apply(d1, items, [b]);
    ApplyOne(d1, items, b);
  }

  lemma {:induction false} ApplyOne(divs: seq<string>, items: seq<string>, a: RenderOp)
    requires |divs| == |items|
    ensures Apply(divs, items, [a]) == ApplyOp(divs, items, a)
  {
    assert [a][1..] == [];
  }

  /** Closing the drawn div (as plain text or inside a tooltip) restores every div. */
  lemma {:induction false} CloseDiv(divs: seq<string>, items: seq<string>, p: TextPos, tooltip: bool)
    requires DrawnUpTo(divs, items, p)
    ensures ApplyOp(divs, items,
      if tooltip then AppendTooltip(p.divIdx, p.offset, None) else AppendText(p.divIdx, p.offset, None)) == items
  {
    SubstringExtends(items[p.divIdx], p.offset, p.offset);
    var r := ApplyOp(divs, items,
      if tooltip then AppendTooltip(p.divIdx, p.offset, None) else AppendText(p.divIdx, p.offset, None));
    assert forall d :: 0 <= d < |items| ==> r[d] == items[d];
  }

  /** Emptying a div of the intact text and appending its start draws it up to `off`. */
  lemma {:induction false} StartDiv(items: seq<string>, d: int, off: int, tooltip: bool)
    requires 0 <= d < |items| && 0 <= off <= |items[d]|
    ensures DrawnUpTo(Apply(items, items,
      [ClearDiv(d), if tooltip then AppendTooltip(d, 0, Some(off)) else AppendText(d, 0, Some(off))]),
      items, TextPos(d, off))
  {
    ApplyTwo(items, items, ClearDiv(d), if tooltip then AppendTooltip(d, 0, Some(off)) else AppendText(d, 0, Some(off)));
    SubstringExtends(items[d], 0, off);
    assert items[d][..0] == "";
  }

  /** The lead-in draws the begin div up to the begin offset, every other div intact. */
  lemma {:induction false} LeadInDraws(divs: seq<string>, items: seq<string>, prevEnd: Option<TextPos>, m: MatchRange)
    requires |divs| == |items|
    requires prevEnd.None? ==> divs == items
    requires prevEnd.Some? ==> DrawnUpTo(divs, items, prevEnd.value)
    requires RangeInText(items, m)
    requires prevEnd.Some? && prevEnd.value.divIdx == m.begin.divIdx ==> prevEnd.value.offset <= m.begin.offset
    ensures DrawnUpTo(Apply(divs, items, LeadIn(prevEnd, m)), items, m.begin)
  {
    var start := [ClearDiv(m.begin.divIdx), AppendText(m.begin.divIdx, 0, Some(m.begin.offset))];
    if prevEnd.None? {
      assert LeadIn(prevEnd, m) == start;
      StartDiv(items, m.begin.divIdx, m.begin.offset, false);
    } else if m.begin.divIdx != prevEnd.value.divIdx {
      var close := AppendText(prevEnd.value.divIdx, prevEnd.value.offset, None);
      assert LeadIn(prevEnd, m) == [close] + start;
      ApplyAppend(divs, items, [close], start);
      ApplyOne(divs, items, close);
      CloseDiv(divs, items, prevEnd.value, false);
      StartDiv(items, m.begin.divIdx, m.begin.offset, false);
    } else {
      ApplyOne(divs, items, AppendText(prevEnd.value.divIdx, prevEnd.value.offset, Some(m.begin.offset)));
      ExtendDiv(divs, items, prevEnd.value, m.begin.offset, false);
    }
  }

  /**
   * The steps of one match as pdf.js's text layer draws them: one tooltip piece inside a
   * single div; across divs, the rest of the begin div, then the end div emptied and drawn
   * up to the end offset (the divs in between keep their text).
   */
  function MatchSteps(m: MatchRange): seq<RenderOp> {
    if m.begin.divIdx == m.end.divIdx then [AppendTooltip(m.begin.divIdx, m.begin.offset, Some(m.end.offset))]
    else [AppendTooltip(m.begin.divIdx, m.begin.offset, None),
          ClearDiv(m.end.divIdx), AppendTooltip(m.end.divIdx, 0, Some(m.end.offset))]
  }

  lemma {:induction false} MatchStepsDraw(divs: seq<string>, items: seq<string>, m: MatchRange)
    requires DrawnUpTo(divs, items, m.begin) && RangeInText(items, m)
    ensures DrawnUpTo(Apply(divs, items, MatchSteps(m)), items, m.end)
  {
    if m.begin.divIdx == m.end.divIdx {
      ApplyOne(divs, items, AppendTooltip(m.begin.divIdx, m.begin.offset, Some(m.end.offset)));
      ExtendDiv(divs, items, m.begin, m.end.offset, true);
    } else {
      var close := AppendTooltip(m.begin.divIdx, m.begin.offset, None);
      var start := [ClearDiv(m.end.divIdx), AppendTooltip(m.end.divIdx, 0, Some(m.end.offset))];
      assert MatchSteps(m) == [close] + start;
      ApplyAppend(divs, items, [close], start);
      ApplyOne(divs, items, close);
      CloseDiv(divs, items, m.begin, true);
      StartDiv(items, m.end.divIdx, m.end.offset, true);
    }
  }

  /** The corrected steps for the remaining matches after `prevEnd`, and the tail of the last div. */
  function PlanAcrossDivsFrom(prevEnd: Option<TextPos>, ms: seq<MatchRange>): seq<RenderOp>
    decreases ms
  {
    if ms == [] then
      (if prevEnd.Some? then [AppendText(prevEnd.value.divIdx, prevEnd.value.offset, None)] else [])
    else LeadIn(prevEnd, ms[0]) + MatchSteps(ms[0]) + PlanAcrossDivsFrom(Some(ms[0].end), ms[1..])
  }

  /** `renderMatches` corrected for matches that cross a div boundary. */
  function RenderPlanAcrossDivs(ms: seq<MatchRange>): seq<RenderOp> {
    PlanAcrossDivsFrom(None, ms)
  }

  lemma {:induction false} PlanAcrossDivsRestores(divs: seq<string>, items: seq<string>, prevEnd: Option<TextPos>, ms: seq<MatchRange>)
    requires |divs| == |items|
    requires prevEnd.None? ==> divs == items
    requires prevEnd.Some? ==> DrawnUpTo(divs, items, prevEnd.value)
    requires Drawable(items, prevEnd, ms)
    ensures Apply(divs, items, PlanAcrossDivsFrom(prevEnd, ms)) == items
    decreases ms
  {
    if ms == [] {
      if prevEnd.Some? {
        ApplyOne(divs, items, AppendText(prevEnd.value.divIdx, prevEnd.value.offset, None));
        CloseDiv(divs, items, prevEnd.value, false);
      }
    } else {
      var m := ms[0];
      var lead, steps, rest := LeadIn(prevEnd, m), MatchSteps(m), PlanAcrossDivsFrom(Some(m.end), ms[1..]);
      ApplyAppend(divs, items, lead + steps, rest);
      ApplyAppend(divs, items, lead, steps);
      LeadInDraws(divs, items, prevEnd, m);
      var afterLead := Apply(divs, items, lead);
      MatchStepsDraw(afterLead, items, m);
      PlanAcrossDivsRestores(Apply(afterLead, items, steps), items, Some(m.end), ms[1..]);
    }
  }

  /**
   * With the correction, drawing the matches leaves every div holding exactly its text item:
   * the tooltips split the text but neither lose nor repeat any of it.
   */
  lemma {:induction false} RenderAcrossDivsKeepsText(items: seq<string>, ms: seq<MatchRange>)
    requires Drawable(items, None, ms)
    ensures Apply(items, items, RenderPlanAcrossDivs(ms)) == items
  {
    PlanAcrossDivsRestores(items, items, None, ms);
  }

  /** Every match begins and ends in the same div. */
  predicate WithinOneDiv(ms: seq<MatchRange>) {
    forall k :: 0 <= k < |ms| ==> ms[k].begin.divIdx == ms[k].end.divIdx
  }

  /** On matches that stay inside one div the source's plan and the corrected plan agree. */
  lemma {:induction false} PlansAgreeWithinOneDiv(prevEnd: Option<TextPos>, ms: seq<MatchRange>)
    requires WithinOneDiv(ms)
    ensures PlanFrom(prevEnd, ms) == PlanAcrossDivsFrom(prevEnd, ms)
    decreases ms
  {
    if ms != [] {
      assert WithinOneDiv(ms[1..]) by {
        forall k | 0 <= k < |ms[1..]| ensures ms[1..][k].begin.divIdx == ms[1..][k].end.divIdx {
          assert ms[1..][k] == ms[k + 1];
        }
      }
      PlansAgreeWithinOneDiv(Some(ms[0].end), ms[1..]);
      assert ms[0].begin.divIdx == ms[0].end.divIdx;
    }
  }

  /** So the source's plan keeps the text of every div as long as no match crosses a div boundary. */
  lemma {:induction false} RenderKeepsTextWithinOneDiv(items: seq<string>, ms: seq<MatchRange>)
    requires Drawable(items, None, ms) && WithinOneDiv(ms)
    ensures Apply(items, items, RenderPlan(ms)) == items
  {
    PlansAgreeWithinOneDiv(None, ms);
    RenderAcrossDivsKeepsText(items, ms);
  }

  /**
   * A search for "bc" over the items "ab" and "cd": the converted range runs from offset 1 of
   * item 0 to offset 1 of item 1. The source's plan draws a tooltip over `"ab".substring(1, 1)`,
   * the empty string, so "b" is lost from the first div, and appends "d" to the second div
   * without emptying it first; the corrected plan keeps both texts.
   */
  lemma {:induction false} CrossingMatchLosesText()
    ensures var items, range := ["ab", "cd"], MatchRange(TextPos(0, 1), TextPos(1, 1));
      && Converted(items, 2, [1], [range])
      && Drawable(items, None, [range])
      && Apply(items, items, RenderPlan([range])) == ["a", "cdd"]
      && Apply(items, items, RenderPlanAcrossDivs([range])) == items
  {
    var items, range := ["ab", "cd"], MatchRange(TextPos(0, 1), TextPos(1, 1));
    CrossingMatchConverted();
    CrossingMatchPlan();
    CrossingMatchApply();
    RenderAcrossDivsKeepsText(items, [range]);
  }

  lemma CrossingMatchConverted()
    ensures var items, range := ["ab", "cd"], MatchRange(TextPos(0, 1), TextPos(1, 1));
      Converted(items, 2, [1], [range]) && Drawable(items, None, [range])
  {
    var items, range := ["ab", "cd"], MatchRange(TextPos(0, 1), TextPos(1, 1));
    assert Prefix(items, 1) == 2 && Prefix(items, 2) == 4;
    assert RangeAt(items, 2, StartOf([range], 0), [1][0], [range][0]);
    assert [range][1..] == [];
  }

  /** The source's steps for the crossing match. */
  lemma CrossingMatchPlan()
    ensures RenderPlan([MatchRange(TextPos(0, 1), TextPos(1, 1))])
      == [ClearDiv(0), AppendText(0, 0, Some(1)), AppendTooltip(0, 1, Some(1)), AppendText(1, 1, None)]
  {
    var range := MatchRange(TextPos(0, 1), TextPos(1, 1));
    var ops := [ClearDiv(0), AppendText(0, 0, Some(1)), AppendTooltip(0, 1, Some(1)), AppendText(1, 1, None)];
    assert [range][1..] == [];
    assert LeadIn(None, range) == ops[..2];
    assert OpenMatch(None, range) == ops[..3];
    assert PlanFrom(Some(range.end), []) == ops[3..];
  }

  /** What those steps leave in the two divs. */
  lemma CrossingMatchApply()
    ensures Apply(["ab", "cd"], ["ab", "cd"],
      [ClearDiv(0), AppendText(0, 0, Some(1)), AppendTooltip(0, 1, Some(1)), AppendText(1, 1, None)]) == ["a", "cdd"]
  {
    var items := ["ab", "cd"];
    var ops := [ClearDiv(0), AppendText(0, 0, Some(1)), AppendTooltip(0, 1, Some(1)), AppendText(1, 1, None)];
    var d1 := ApplyOp(items, items, ops[0]);
    assert d1 == ["", "cd"];
    var d2 := ApplyOp(d1, items, ops[1]);
    assert Substring("ab", 0, Some(1)) == "ab"[0..1] == "a";
    assert d2 == d1[0 := "" + "a"];
    assert "" + "a" == "a";
    assert |d2| == 2 && d2[0] == "a" && d2[1] == "cd";
    assert d2 == ["a", "cd"];
    var d3 := ApplyOp(d2, items, ops[2]);
    assert Substring("ab", 1, Some(1)) == "ab"[1..1] == "";
    assert d3 == d2[0 := "a" + ""];
    assert "a" + "" == "a";
    assert |d3| == 2 && d3[0] == "a" && d3[1] == "cd";
    assert d3 == ["a", "cd"];
    var d4 := ApplyOp(d3, items, ops[3]);
    assert Substring("cd", 1, None) == "cd"[1..2] == "d";
    assert d4 == d3[1 := "cd" + "d"];
    assert "cd" + "d" == "cdd";
    assert |d4| == 2 && d4[0] == "a" && d4[1] == "cdd";
    assert d4 == ["a", "cdd"];
    assert ops == ops[..2] + ops[2..];
    ApplyAppend(items, items, ops[..2], ops[2..]);
    ApplyTwo(items, items, ops[0], ops[1]);
    ApplyTwo(d2, items, ops[2], ops[3]);
    assert ops[..2] == [ops[0], ops[1]] && ops[2..] == [ops[2], ops[3]];
  }
}
