/** The stand-alone explicit-stack adaptive trapezoid. Its interval record carries an extra
    midpoint-value field `fm` that is never assigned and never read; otherwise the loop is
    the library's. */
module TrapezoidalAdaptiveNonRecursiveProgram {
  import IM = IntegrationMethods

  /** struct Interval with the unused `fm` field. */
  datatype Interval = Interval(a: real, b: real, fa: real, fb: real, fm: real, area: real, depth: int)

  /** The record without `fm`: the library's interval. */
  function Strip(iv: Interval): IM.Interval {
    IM.Interval(iv.a, iv.b, iv.fa, iv.fb, iv.area, iv.depth)
  }

  function Strips(stack: seq<Interval>): (s: seq<IM.Interval>)
    ensures |s| == |stack| && forall i :: 0 <= i < |stack| ==> s[i] == Strip(stack[i])
  {
    seq(|stack|, i requires 0 <= i < |stack| => Strip(stack[i]))
  }

  lemma StripsPush(stack: seq<Interval>, iv: Interval)
    ensures Strips(stack + [iv]) == Strips(stack) + [Strip(iv)]
  {
  }

  lemma StripsPop(stack: seq<Interval>)
    requires stack != []
    ensures Strips(stack[..|stack| - 1]) == Strips(stack)[..|stack| - 1]
  {
  }

  /** One pass of the loop, on records with the unused `fm` field: pop, then add at the
      depth limit, add both halves within `tolerance`, or push the right half and then the
      left. Without `fm` the stack keeps the library's loop invariant and its work drops. */
  method StackPass(f: real -> real, a: real, b: real, tolerance: real, maxDepth: int,
                   intervals: seq<Interval>, total: real, ghost pieces: seq<(real, real)>, ghost cursor: real)
    returns (intervals': seq<Interval>, total': real, ghost pieces': seq<(real, real)>, ghost cursor': real)
    requires intervals != [] && IM.StackInv(f, a, b, tolerance, maxDepth, Strips(intervals), total, pieces, cursor)
    ensures IM.StackInv(f, a, b, tolerance, maxDepth, Strips(intervals'), total', pieces', cursor')
    ensures IM.StackWork(Strips(intervals'), maxDepth) < IM.StackWork(Strips(intervals), maxDepth)
  {
    var interval := intervals[|intervals| - 1];
    ghost var stack := Strips(intervals);
    StripsPop(intervals);
    intervals' := intervals[..|intervals| - 1];
    assert Strips(intervals') == stack[..|stack| - 1];
    if interval.depth >= maxDepth {
      IM.StackStepLimit(f, a, b, tolerance, maxDepth, stack, total, pieces, cursor);
      total' := total + interval.area;
      pieces' := pieces + [(interval.a, interval.b)];
      cursor' := interval.b;
      return;
    }
    var mid := (interval.a + interval.b) / 2.0;
    var fMid := f(mid);
    var left := Interval(interval.a, mid, interval.fa, fMid, 0.0, IM.TrapezoidArea(interval.a, mid, interval.fa, fMid), interval.depth + 1);
    var right := Interval(mid, interval.b, fMid, interval.fb, 0.0, IM.TrapezoidArea(mid, interval.b, fMid, interval.fb), interval.depth + 1);
    var error := IM.Abs(left.area + right.area - interval.area);
    if error < tolerance {
      IM.StackStepAccept(f, a, b, tolerance, maxDepth, stack, total, pieces, cursor, Strip(left), Strip(right));
      total' := total + (left.area + right.area);
      pieces' := pieces + [(interval.a, mid), (mid, interval.b)];
      cursor' := interval.b;
    } else {
      IM.StackStepSplit(f, a, b, tolerance, maxDepth, stack, total, pieces, cursor, Strip(left), Strip(right));
      StripsPush(intervals', right);
      intervals' := intervals' + [right];
      StripsPush(intervals', left);
      intervals' := intervals' + [left];
      assert Strips(intervals') == stack[..|stack| - 1] + [Strip(right)] + [Strip(left)];
      total', pieces', cursor' := total, pieces, cursor;
    }
  }

  /** adaptiveTrapezoidalNonRecursive: the same start and loop, with the same unhalved
      tolerance; the result is the library's fixed-tolerance adaptive trapezoid and the
      added pieces tile [a, b]. */
  method AdaptiveTrapezoidalNonRecursive(f: real -> real, a: real, b: real, tolerance: real, maxDepth: int)
    returns (total: real, ghost pieces: seq<(real, real)>)
    ensures total == IM.FixedTolTrapezoidal(f, a, b, tolerance, maxDepth, 0)
    ensures IM.Chain(pieces, a, b) && total == IM.PieceSum(f, pieces)
  {
    var intervals: seq<Interval> := [];
    total := 0.0;
    var fa := f(a);
    var fb := f(b);
    var initial := Interval(a, b, fa, fb, 0.0, IM.TrapezoidArea(a, b, fa, fb), 0);
    StripsPush(intervals, initial);
    intervals := intervals + [initial];
    pieces := [];
    ghost var cursor := a;
    IM.StackStart(f, a, b, tolerance, maxDepth);
    while intervals != []
      invariant IM.StackInv(f, a, b, tolerance, maxDepth, Strips(intervals), total, pieces, cursor)
      decreases IM.StackWork(Strips(intervals), maxDepth)
    {
      intervals, total, pieces, cursor := StackPass(f, a, b, tolerance, maxDepth, intervals, total, pieces, cursor);
    }
  }

  /** With max_depth <= 0 the loop adds only the initial interval's area. */
  lemma DepthLimitZero(f: real -> real, a: real, b: real, tolerance: real, maxDepth: int)
    requires maxDepth <= 0
    ensures IM.FixedTolTrapezoidal(f, a, b, tolerance, maxDepth, 0) == 0.5 * (b - a) * (f(a) + f(b))
  {
  }
}
