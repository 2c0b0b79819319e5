/** adaptive_trapezoidal with a FIFO task queue: the seed task caches f at both ends and the
    midpoint with its two-panel trapezoid value S; each worker step pops the front task,
    evaluates f at the two quarter points, and either accepts the four-panel value with the
    correction (S2 - S)/15 or pushes the two halves with half the tolerance. One worker
    runs the steps, so the queue is a plain sequence. */
module TaskQueueTrapezoidal {
  import IM = IntegrationMethods

  /** Task{a, b, tol, fa, fb, fc, S}. */
  datatype Task = Task(a: real, b: real, tol: real, fa: real, fb: real, fc: real, s: real)

  /** The two-panel trapezoid value (h/2)(f0 + 2 f1 + f2) of an interval of width 2h. */
  function TwoPanel(h: real, f0: real, f1: real, f2: real): real {
    (h / 2.0) * (f0 + 2.0 * f1 + f2)
  }

  /** What a task caches: f at its ends and its midpoint, and its two-panel value. */
  ghost predicate Cached(f: real -> real, t: Task) {
    && t.fa == f(t.a)
    && t.fb == f(t.b)
    && t.fc == f(t.a + (t.b - t.a) / 2.0)
    && t.s == TwoPanel((t.b - t.a) / 2.0, t.fa, t.fc, t.fb)
  }

  /** The seed task on [a, b], built from three evaluations. */
  function Seed(f: real -> real, a: real, b: real, tol: real): (t: Task)
    ensures Cached(f, t) && t.a == a && t.b == b && t.tol == tol
  {
    var h := (b - a) / 2.0;
    var fa, fb, fc := f(a), f(b), f(a + h);
    Task(a, b, tol, fa, fb, fc, TwoPanel(h, fa, fc, fb))
  }

  /** The value a step gives the half [p, p + h] of a task, with f0, f1, f2 at its ends and
      midpoint: its own two-panel value, whose half-width is h/2. */
  function HalfSum(h: real, f0: real, f1: real, f2: real): real {
    TwoPanel(h / 2.0, f0, f1, f2)
  }

  /** The half value as the source writes it, (h/2)(f0 + 2 f1 + f2) with h the parent's
      half-width, which is the half's full width. */
  function HalfSumAsWritten(h: real, f0: real, f1: real, f2: real): real {
    (h / 2.0) * (f0 + 2.0 * f1 + f2)
  }

  /** The as-written half value is always twice the two-panel value of the half. */
  lemma HalfSumAsWrittenDoubles(h: real, f0: real, f1: real, f2: real)
    ensures HalfSumAsWritten(h, f0, f1, f2) == 2.0 * HalfSum(h, f0, f1, f2)
  {
  }

  /** What one processed task yields. */
  datatype Processed = Accepted(value: real) | Refined(left: Task, right: Task)

  /** The body of one worker iteration after the pop: f at a + h/2 and a + 3h/2, the two half
      values and their sum S2; accept S2 + (S2 - S)/15 when |S2 - S| < 15 tol, else the two
      halves with tol/2, inheriting the cached values. */
  function ProcessTask(f: real -> real, t: Task): Processed {
    var h := (t.b - t.a) / 2.0;
    var fd := f(t.a + h / 2.0);
    var fe := f(t.a + 3.0 * h / 2.0);
    var sLeft := HalfSum(h, t.fa, fd, t.fc);
    var sRight := HalfSum(h, t.fc, fe, t.fb);
    var s2 := sLeft + sRight;
    if IM.Abs(s2 - t.s) < 15.0 * t.tol then
      Accepted(s2 + (s2 - t.s) / 15.0)
    else
      Refined(Task(t.a, t.a + h, t.tol / 2.0, t.fa, t.fc, fd, sLeft),
              Task(t.a + h, t.b, t.tol / 2.0, t.fc, t.fb, fe, sRight))
  }

  /** A rejected task's halves tile it, carry half its tolerance, inherit its cached end and
      midpoint values, and are again correctly cached. */
  lemma ProcessTaskChildren(f: real -> real, t: Task)
    requires Cached(f, t)
    ensures var r := ProcessTask(f, t);
            r.Refined? ==>
              && r.left.a == t.a && r.left.b == r.right.a && r.right.b == t.b
              && r.left.b - r.left.a == r.right.b - r.right.a == (t.b - t.a) / 2.0
              && r.left.tol == r.right.tol == t.tol / 2.0
              && r.left.fa == t.fa && r.left.fb == t.fc && r.right.fa == t.fc && r.right.fb == t.fb
              && Cached(f, r.left) && Cached(f, r.right)
  {
    var h := (t.b - t.a) / 2.0;
    assert t.a + h + (t.b - (t.a + h)) / 2.0 == t.a + 3.0 * h / 2.0;
  }

  /** An antiderivative's increase over a task's interval. */
  function Mass(m: real, c: real, t: Task): real {
    IM.AffinePrimitive(m, c, t.b) - IM.AffinePrimitive(m, c, t.a)
  }

  lemma TwoPanelAffine(m: real, c: real, p: real, q: real)
    ensures TwoPanel((q - p) / 2.0, m * p + c, m * (p + (q - p) / 2.0) + c, m * q + c)
            == IM.AffinePrimitive(m, c, q) - IM.AffinePrimitive(m, c, p)
  {
    var w := q - p;
    assert (m * p + c) + 2.0 * (m * (p + w / 2.0) + c) + (m * q + c) == 2.0 * m * (p + q) + 4.0 * c;
    assert (w / 4.0) * (2.0 * m * (p + q) + 4.0 * c) == m * (q * q - p * p) / 2.0 + c * w;
  }

  /** For an affine f a cached task's S is exactly the integral over its interval. */
  lemma CachedExactForAffine(f: real -> real, m: real, c: real, t: Task)
    requires forall x :: f(x) == m * x + c
    requires Cached(f, t)
    ensures t.s == Mass(m, c, t)
  {
    TwoPanelAffine(m, c, t.a, t.b);
  }

  /** For an affine f, S2 equals S: a task is accepted exactly when tol > 0 and then adds its
      exact integral; a rejected task's halves share its integral between them. */
  lemma ProcessTaskExactForAffine(f: real -> real, m: real, c: real, t: Task)
    requires forall x :: f(x) == m * x + c
    requires Cached(f, t)
    ensures ProcessTask(f, t).Accepted? <==> t.tol > 0.0
    ensures ProcessTask(f, t).Accepted? ==> ProcessTask(f, t).value == Mass(m, c, t)
    ensures ProcessTask(f, t).Refined? ==>
              Mass(m, c, ProcessTask(f, t).left) + Mass(m, c, ProcessTask(f, t).right) == Mass(m, c, t)
  {
    var h := (t.b - t.a) / 2.0;
    var fd := f(t.a + h / 2.0);
    var fe := f(t.a + 3.0 * h / 2.0);
    var left := Task(t.a, t.a + h, t.tol / 2.0, t.fa, t.fc, fd, HalfSum(h, t.fa, fd, t.fc));
    var right := Task(t.a + h, t.b, t.tol / 2.0, t.fc, t.fb, fe, HalfSum(h, t.fc, fe, t.fb));
    assert t.a + h + (t.b - (t.a + h)) / 2.0 == t.a + 3.0 * h / 2.0;
    assert Cached(f, left) && Cached(f, right);
    CachedExactForAffine(f, m, c, t);
    CachedExactForAffine(f, m, c, left);
    CachedExactForAffine(f, m, c, right);
    assert left.s + right.s == t.s;
  }

  /** The total integral still owed by the tasks in the queue. */
  function QueueMass(m: real, c: real, queue: seq<Task>): real
    decreases |queue|
  {
    if queue == [] then 0.0 else Mass(m, c, queue[0]) + QueueMass(m, c, queue[1..])
  }

  lemma {:induction false} QueueMassAppend(m: real, c: real, queue: seq<Task>, more: seq<Task>)
    ensures QueueMass(m, c, queue + more) == QueueMass(m, c, queue) + QueueMass(m, c, more)
    decreases |queue|
  {
    if queue == [] {
      assert queue + more == more;
    } else {
      assert (queue + more)[1..] == queue[1..] + more;
      QueueMassAppend(m, c, queue[1..], more);
    }
  }

  ghost predicate Affine(f: real -> real, m: real, c: real) {
    forall x :: f(x) == m * x + c
  }

  /** One worker iteration on a non-empty queue: pop the front task; an accepted value is
      added to the result, a rejected task's halves are pushed at the back, left first. */
  function Advance(f: real -> real, queue: seq<Task>, result: real): (seq<Task>, real)
    requires queue != []
  {
    match ProcessTask(f, queue[0])
    case Accepted(v) => (queue[1..], result + v)
    case Refined(left, right) => (queue[1..] + [left, right], result)
  }

  /** The worker iteration after the pop exactly as written, with the doubled half values
      HalfSumAsWritten in S_left, S_right and the pushed halves' S. */
  function ProcessTaskAsWritten(f: real -> real, t: Task): Processed {
    var h := (t.b - t.a) / 2.0;
    var fd := f(t.a + h / 2.0);
    var fe := f(t.a + 3.0 * h / 2.0);
    var sLeft := HalfSumAsWritten(h, t.fa, fd, t.fc);
    var sRight := HalfSumAsWritten(h, t.fc, fe, t.fb);
    var s2 := sLeft + sRight;
    if IM.Abs(s2 - t.s) < 15.0 * t.tol then
      Accepted(s2 + (s2 - t.s) / 15.0)
    else
      Refined(Task(t.a, t.a + h, t.tol / 2.0, t.fa, t.fc, fd, sLeft),
              Task(t.a + h, t.b, t.tol / 2.0, t.fc, t.fb, fe, sRight))
  }

  /** One worker iteration exactly as written: pop, process with the doubled half values,
      add or push the halves at the back. */
  function AdvanceAsWritten(f: real -> real, queue: seq<Task>, result: real): (seq<Task>, real)
    requires queue != []
  {
    match ProcessTaskAsWritten(f, queue[0])
    case Accepted(v) => (queue[1..], result + v)
    case Refined(left, right) => (queue[1..] + [left, right], result)
  }

  /** What the halves the source pushes hold: f at their ends and midpoints as cached, but
      S twice their own two-panel value, so they are never correctly cached. */
  lemma ProcessTaskAsWrittenChildren(f: real -> real, t: Task)
    requires Cached(f, t)
    ensures var r := ProcessTaskAsWritten(f, t);
            r.Refined? ==>
              && r.left.a == t.a && r.left.b == r.right.a && r.right.b == t.b
              && r.left.tol == r.right.tol == t.tol / 2.0
              && r.left.fa == f(r.left.a) && r.left.fb == f(r.left.b) && r.left.fc == f(r.left.a + (r.left.b - r.left.a) / 2.0)
              && r.right.fa == f(r.right.a) && r.right.fb == f(r.right.b) && r.right.fc == f(r.right.a + (r.right.b - r.right.a) / 2.0)
              && r.left.s == 2.0 * TwoPanel((r.left.b - r.left.a) / 2.0, r.left.fa, r.left.fc, r.left.fb)
              && r.right.s == 2.0 * TwoPanel((r.right.b - r.right.a) / 2.0, r.right.fa, r.right.fc, r.right.fb)
  {
    var h := (t.b - t.a) / 2.0;
    assert t.a + h + (t.b - (t.a + h)) / 2.0 == t.a + 3.0 * h / 2.0;
  }

  /** For f = 1 on [0, 1] with tol = 0.001, starting from result 0 and the seed task
      OneSeed (which is Seed(f, 0, 1, 0.001), by ConstantOneSeed): as written, the seed
      (S = 1, the exact integral) is rejected because its halves get 1 each; each half is
      then accepted with 1, and after three iterations the queue is empty and the result
      is 2. With the corrected half values the seed is accepted at once with 1. */
  lemma ConstantOneAsWritten(f: real -> real)
    requires forall x :: f(x) == 1.0
    ensures AdvanceAsWritten(f, [OneSeed], 0.0) == ([OneLeft, OneRight], 0.0)
    ensures AdvanceAsWritten(f, [OneLeft, OneRight], 0.0) == ([OneRight], 1.0)
    ensures AdvanceAsWritten(f, [OneRight], 1.0) == ([], 2.0)
    ensures Advance(f, [OneSeed], 0.0) == ([], 1.0)
  {
    ConstantOneFirstStep(f);
    ConstantOneSecondStep(f);
    ConstantOneThirdStep(f);
    ConstantOneCorrectedStep(f);
  }

  /** The seed task for f = 1 on [0, 1] with tol = 0.001: S = 1, the exact integral. */
  const OneSeed := Task(0.0, 1.0, 0.001, 1.0, 1.0, 1.0, 1.0)

  /** The halves the as-written seed step pushes for f = 1 on [0, 1]: each carries S = 1,
      twice its own two-panel value 0.5. */
  const OneLeft := Task(0.0, 0.5, 0.0005, 1.0, 1.0, 1.0, 1.0)
  const OneRight := Task(0.5, 1.0, 0.0005, 1.0, 1.0, 1.0, 1.0)

  /** The seed adaptive_trapezoidal builds for f = 1 on [0, 1] with tol = 0.001. */
  lemma ConstantOneSeed(f: real -> real)
    requires forall x :: f(x) == 1.0
    ensures Seed(f, 0.0, 1.0, 0.001) == OneSeed
  {
  }

  lemma ConstantOneFirstStep(f: real -> real)
    requires forall x :: f(x) == 1.0
    ensures AdvanceAsWritten(f, [OneSeed], 0.0) == ([OneLeft, OneRight], 0.0)
  {
    assert ProcessTaskAsWritten(f, OneSeed) == Refined(OneLeft, OneRight);
    assert [OneSeed][1..] + [OneLeft, OneRight] == [OneLeft, OneRight];
  }

  lemma ConstantOneSecondStep(f: real -> real)
    requires forall x :: f(x) == 1.0
    ensures AdvanceAsWritten(f, [OneLeft, OneRight], 0.0) == ([OneRight], 1.0)
  {
    assert ProcessTaskAsWritten(f, OneLeft) == Accepted(1.0);
    assert [OneLeft, OneRight][1..] == [OneRight];
  }

  lemma ConstantOneThirdStep(f: real -> real)
    requires forall x :: f(x) == 1.0
    ensures AdvanceAsWritten(f, [OneRight], 1.0) == ([], 2.0)
  {
    assert ProcessTaskAsWritten(f, OneRight) == Accepted(1.0);
    assert [OneRight][1..] == [];
  }

  lemma ConstantOneCorrectedStep(f: real -> real)
    requires forall x :: f(x) == 1.0
    ensures Advance(f, [OneSeed], 0.0) == ([], 1.0)
  {
    assert ProcessTask(f, OneSeed) == Accepted(1.0);
    assert [OneSeed][1..] == [];
  }

  ghost predicate AllCached(f: real -> real, queue: seq<Task>) {
    forall i :: 0 <= i < |queue| ==> Cached(f, queue[i])
  }

  /** The queue is FIFO: the tasks behind the front keep their order at the front of the new
      queue, which shrinks by one on an accept and grows by one on a split; the result
      changes only on an accept. Every queued task stays correctly cached. */
  lemma AdvanceShape(f: real -> real, queue: seq<Task>, result: real)
    requires queue != [] && AllCached(f, queue)
    ensures var (q, r) := Advance(f, queue, result);
            && AllCached(f, q)
            && q[..|queue| - 1] == queue[1..]
            && (ProcessTask(f, queue[0]).Accepted? ==> |q| == |queue| - 1 && r == result + ProcessTask(f, queue[0]).value)
            && (ProcessTask(f, queue[0]).Refined? ==> |q| == |queue| + 1 && r == result)
  {
    assert Cached(f, queue[0]);
    ProcessTaskChildren(f, queue[0]);
    var (q, r) := Advance(f, queue, result);
    assert forall i :: 0 <= i < |queue| - 1 ==> q[i] == queue[i + 1];
  }

  /** For an affine f, the result plus the integral still owed by the queue is the same
      before and after a step. */
  lemma AdvanceConserves(f: real -> real, m: real, c: real, queue: seq<Task>, result: real)
    requires Affine(f, m, c)
    requires queue != [] && AllCached(f, queue)
    ensures var (q, r) := Advance(f, queue, result);
            r + QueueMass(m, c, q) == result + QueueMass(m, c, queue)
  {
    var task := queue[0];
    assert Cached(f, task);
    ProcessTaskExactForAffine(f, m, c, task);
    var outcome := ProcessTask(f, task);
    if outcome.Refined? {
      QueueMassAppend(m, c, queue[1..], [outcome.left, outcome.right]);
      assert [outcome.left, outcome.right][1..] == [outcome.right];
      assert QueueMass(m, c, [outcome.right]) == Mass(m, c, outcome.right);
    }
  }

  /** The state adaptive_trapezoidal shares with its worker: the queue, the caller's result
      and the caller's evaluation counter. */
  class TaskQueueIntegration {
    const func: real -> real
    var queue: seq<Task>
    var result: real
    var functionEvals: int

    ghost predicate Valid()
      reads this
    {
      AllCached(func, queue)
    }

    /** The set-up before the workers start: three evaluations and one task on [a, b];
        result and the counter keep what the caller passed in. */
    constructor (a: real, b: real, tol: real, f: real -> real, result0: real, evals0: int)
      ensures Valid() && func == f
      ensures queue == [Seed(f, a, b, tol)]
      ensures result == result0 && functionEvals == evals0 + 3
    {
      func := f;
      var initialH := (b - a) / 2.0;
      var fa := f(a);
      var fb := f(b);
      var fc := f(a + initialH);
      functionEvals := evals0 + 3;
      var s := (initialH / 2.0) * (fa + 2.0 * fc + fb);
      queue := [Task(a, b, tol, fa, fb, fc, s)];
      result := result0;
    }

    /** One iteration of the worker loop. An empty queue makes the worker return, changing
        nothing. Otherwise the front task is popped and processed with two evaluations: an
        accepted value is added to result, a rejected task's halves go to the back, left
        first. For an affine f, result plus the integral owed by the queue never changes. */
    method Step() returns (idle: bool)
      requires Valid()
      modifies this
      ensures Valid()
      ensures idle <==> old(queue) == []
      ensures idle ==> queue == old(queue) && result == old(result) && functionEvals == old(functionEvals)
      ensures !idle ==> (queue, result) == Advance(func, old(queue), old(result))
                        && functionEvals == old(functionEvals) + 2
      ensures forall m, c :: Affine(func, m, c) ==>
                result + QueueMass(m, c, queue) == old(result) + QueueMass(m, c, old(queue))
    {
      if queue == [] {
        return true;
      }
      idle := false;
      var task := queue[0];
      var outcome := ProcessTask(func, task);
      functionEvals := functionEvals + 2;
      forall m, c | Affine(func, m, c)
        ensures Advance(func, queue, result).1 + QueueMass(m, c, Advance(func, queue, result).0)
                == result + QueueMass(m, c, queue)
      {
        AdvanceConserves(func, m, c, queue, result);
      }
      AdvanceShape(func, queue, result);
      match outcome {
        case Accepted(v) =>
          result := result + v;
          queue := queue[1..];
        case Refined(left, right) =>
          queue := queue[1..] + [left, right];
      }
    }

    /** The worker's loop, run for at most maxSteps iterations (the source loops until the
        queue is empty, with no depth guard). Finishing means the queue was found empty. */
    method Run(maxSteps: nat) returns (finished: bool)
      requires Valid()
      modifies this
      ensures Valid()
      ensures finished ==> queue == []
      ensures forall m, c :: Affine(func, m, c) ==>
                result + QueueMass(m, c, queue) == old(result) + QueueMass(m, c, old(queue))
    {
      finished := false;
      var steps := 0;
      while steps < maxSteps && !finished
        invariant Valid()
        invariant finished ==> queue == []
        invariant forall m, c :: Affine(func, m, c) ==>
                    result + QueueMass(m, c, queue) == old(result) + QueueMass(m, c, old(queue))
        decreases maxSteps - steps
      {
        finished := Step();
        steps := steps + 1;
      }
    }
  }

  /** Seeded on [a, b], a finished run on an affine f has added exactly the integral of f
      over [a, b] to the caller's result. */
  lemma FinishedRunExactForAffine(f: real -> real, m: real, c: real, a: real, b: real, tol: real,
                                  result0: real, result: real, queue: seq<Task>)
    requires Affine(f, m, c)
    requires queue == []
    requires result + QueueMass(m, c, queue) == result0 + QueueMass(m, c, [Seed(f, a, b, tol)])
    ensures result == result0 + IM.AffinePrimitive(m, c, b) - IM.AffinePrimitive(m, c, a)
  {
    CachedExactForAffine(f, m, c, Seed(f, a, b, tol));
    assert [Seed(f, a, b, tol)][1..] == [];
  }
}
