/** A sequential evaluator of a workflow, and the proof that its results follow from each other along
    the dependencies and do not depend on the order it takes. */
module EngineEval {
  import opened Prelude
  import opened Graphs
  import opened Retry
  import opened Workflows
  import opened EngineModel
  import opened EngineSafety

  /** The source of an argument and the task that draws on it are not independent: the one comes before the
      other in every order of the tasks. A name that is no task supplies nothing. */
  ghost predicate Comparable(f: Flow, source: Name, n: Name)
  {
    source !in f.tasks || source == n || StrictlyBelow(f.adj, source, n) || StrictlyBelow(f.adj, n, source)
  }

  /** No argument comes from a task that the schedule may place before or after the one that draws on it. */
  ghost predicate InputsOrdered(f: Flow)
  {
    forall n, p :: n in f.tasks && p in f.tasks[n].inputMap ==> Comparable(f, f.tasks[n].inputMap[p], n)
  }

  /** The same when the given tasks are restored instead of run. The source must be a restored task that comes
      before this one in every order; or the one must depend on the other through tasks that are run. */
  ghost predicate Settled(f: Flow, restored: set<Name>, source: Name, n: Name)
  {
    || source !in f.tasks || source == n
    || (source in restored && StrictlyBelow(f.adj, source, n))
    || FreelyBelow(f.adj, restored, source, n) || FreelyBelow(f.adj, restored, n, source)
  }

  /** No argument of a task that is run depends on the schedule or on what is restored. */
  ghost predicate InputsFit(f: Flow, restored: set<Name>)
  {
    forall n, p :: n in f.tasks && n !in restored && p in f.tasks[n].inputMap ==>
      Settled(f, restored, f.tasks[n].inputMap[p], n)
  }

  /** Every injected argument comes from a declared dependency, or from a name that is no task. */
  ghost predicate InputsDeclared(f: Flow)
  {
    forall n, p :: n in f.tasks && p in f.tasks[n].inputMap ==>
      f.tasks[n].inputMap[p] in Preds(f.adj, n) || f.tasks[n].inputMap[p] !in f.tasks
  }

  /** Inputs from declared dependencies fit whatever is restored. */
  lemma DeclaredFits(f: Flow, restored: set<Name>)
    requires InputsDeclared(f)
    ensures InputsFit(f, restored)
  {
    forall n, p | n in f.tasks && n !in restored && p in f.tasks[n].inputMap
      ensures Settled(f, restored, f.tasks[n].inputMap[p], n)
    {
      var source := f.tasks[n].inputMap[p];
      if source in f.tasks {
        FreeEdge(f.adj, restored, source, n);
      }
    }
  }

  lemma ComparableIsSettled(f: Flow, restored: set<Name>, source: Name, n: Name)
    requires Comparable(f, source, n) && DepClosed(f, restored) && n !in restored
    ensures Settled(f, restored, source, n)
  {
    hide StrictlyBelow, FreelyBelow;
    if StrictlyBelow(f.adj, source, n) && source !in restored {
      StrictIsFree(f.adj, restored, source, n);
    } else if StrictlyBelow(f.adj, n, source) {
      StrictIsFree(f.adj, restored, n, source);
    }
  }

  /** Restoring a set that holds all it depends on, such as nothing, asks no more than that no argument comes
      from a task independent of the one that draws on it. */
  lemma OrderedFits(f: Flow, restored: set<Name>)
    requires InputsOrdered(f) && DepClosed(f, restored)
    ensures InputsFit(f, restored)
  {
    hide Comparable, Settled, DepClosed;
    forall n, p | n in f.tasks && n !in restored && p in f.tasks[n].inputMap
      ensures Settled(f, restored, f.tasks[n].inputMap[p], n)
    {
      ComparableIsSettled(f, restored, f.tasks[n].inputMap[p], n);
    }
  }

  /** Inputs that fit what was restored fit a larger set that holds all it depends on. */
  lemma StillFits(f: Flow, restored: set<Name>, more: set<Name>)
    requires InputsFit(f, restored) && restored <= more && DepClosed(f, more)
    ensures InputsFit(f, more)
  {
    hide Comparable, Settled, DepClosed;
    forall n, p | n in f.tasks && n !in more && p in f.tasks[n].inputMap
      ensures Settled(f, more, f.tasks[n].inputMap[p], n)
    {
      SettledIsComparable(f, restored, f.tasks[n].inputMap[p], n);
      ComparableIsSettled(f, more, f.tasks[n].inputMap[p], n);
    }
  }

  lemma SettledIsComparable(f: Flow, restored: set<Name>, source: Name, n: Name)
    requires Settled(f, restored, source, n)
    ensures Comparable(f, source, n)
  {
    hide StrictlyBelow, FreelyBelow;
    if FreelyBelow(f.adj, restored, source, n) {
      FreeIsStrict(f.adj, restored, source, n);
    } else if FreelyBelow(f.adj, restored, n, source) {
      FreeIsStrict(f.adj, restored, n, source);
    }
  }

  function VerdictOf(f: Flow, results: map<Name, TaskResult>, n: Name): Verdict
    requires n in f.tasks
  {
    match f.tasks[n].condition
    case None => Run
    case Some(condition) => condition(Upstream(f, results, n))
  }

  /** What invoking a task comes to: its output, or None when the retries are used up. */
  function OutcomeOf(f: Flow, n: Name, kwargs: Kwargs): Option<Option<Value>>
    requires n in f.tasks
  {
    var task := f.tasks[n];
    var retries := if task.retryCount != 0 then task.retryCount else f.defaultRetries;
    match Retried((i: nat) => task.func(kwargs, i), retries)
    case Done(output) => Some(output)
    case _ => None
  }

  function ResultOf(outcome: Option<Option<Value>>): TaskResult
  {
    match outcome
    case Some(output) => TaskResult(SUCCESS, output)
    case None => TaskResult(FAILED, None)
  }

  predicate Blocked(f: Flow, m: map<Name, TaskResult>, n: Name)
  {
    exists d :: d in Preds(f.adj, n) && (d !in m || m[d].status == FAILED)
  }

  /** The result of one task from those of its dependencies; None when it is blocked, or when its
      condition raises. */
  function EvalOne(f: Flow, m: map<Name, TaskResult>, n: Name): Option<TaskResult>
    requires n in f.tasks
  {
    if Blocked(f, m, n) then None
    else match VerdictOf(f, m, n)
         case Skip => Some(SkippedResult())
         case Raise => None
         case Run => Some(ResultOf(OutcomeOf(f, n, KwargsOf(f, m, n))))
  }

  /** The results once one more task has been evaluated. */
  function WithOutcome(f: Flow, m: map<Name, TaskResult>, n: Name): map<Name, TaskResult>
    requires n in f.tasks
  {
    match EvalOne(f, m, n)
    case Some(r) => m[n := r]
    case None => m
  }

  /** One task after the other, in the given order. */
  function EvalPrefix(f: Flow, order: seq<Name>, k: nat): map<Name, TaskResult>
    requires k <= |order| && forall n :: n in order ==> n in f.tasks
  {
    if k == 0 then map[] else WithOutcome(f, EvalPrefix(f, order, k - 1), order[k - 1])
  }

  ghost predicate Orders(f: Flow, order: seq<Name>)
  {
    IsTopologicalOrder(f.adj, order) && forall n :: n in order ==> n in f.tasks
  }

  function Evaluate(f: Flow, order: seq<Name>): map<Name, TaskResult>
    requires forall n :: n in order ==> n in f.tasks
  {
    EvalPrefix(f, order, |order|)
  }

  // ---------------------------------------------------------------------------
  // The evaluator's result does not depend on the order
  // ---------------------------------------------------------------------------

  /** The results of the tasks that the given one transitively depends on. */
  ghost function Above(f: Flow, m: map<Name, TaskResult>, n: Name): map<Name, TaskResult>
  {
    map a | a in m && StrictlyBelow(f.adj, a, n) :: m[a]
  }

  ghost predicate LocallyRight(f: Flow, m: map<Name, TaskResult>, n: Name)
  {
    n in f.tasks && Lookup(m, n) == EvalOne(f, Above(f, m, n), n)
  }

  /** Results of tasks only, each following from its ancestors', except those that are given. */
  ghost predicate Consistent(f: Flow, m: map<Name, TaskResult>, given: set<Name>)
  {
    m.Keys <= f.tasks.Keys && forall n :: n in f.tasks && n !in given ==> LocallyRight(f, m, n)
  }

  ghost predicate SameOnDeps(f: Flow, m1: map<Name, TaskResult>, m2: map<Name, TaskResult>, n: Name)
  {
    forall d :: d in Preds(f.adj, n) ==> Lookup(m1, d) == Lookup(m2, d)
  }

  lemma VerdictLocal(f: Flow, m1: map<Name, TaskResult>, m2: map<Name, TaskResult>, n: Name)
    requires ValidFlow(f) && n in f.tasks && SameOnDeps(f, m1, m2, n)
    ensures VerdictOf(f, m1, n) == VerdictOf(f, m2, n)
  {
    forall d | d in f.tasks[n].dependsOn ensures Lookup(m1, d) == Lookup(m2, d) {
      assert d in Preds(f.adj, n);
    }
    assert Upstream(f, m1, n) == Upstream(f, m2, n);
  }

  lemma BlockedLocal(f: Flow, m1: map<Name, TaskResult>, m2: map<Name, TaskResult>, n: Name)
    requires SameOnDeps(f, m1, m2, n)
    ensures Blocked(f, m1, n) == Blocked(f, m2, n)
  {
    forall d | d in Preds(f.adj, n)
      ensures (d in m1 <==> d in m2) && (d in m1 ==> m1[d] == m2[d])
    {
      assert Lookup(m1, d) == Lookup(m2, d);
    }
  }

  /** Whether a task is blocked and what its condition says depend on its ancestors' results only. */
  lemma AboveIsEnough(f: Flow, m: map<Name, TaskResult>, n: Name)
    requires ValidFlow(f) && n in f.tasks
    ensures VerdictOf(f, Above(f, m, n), n) == VerdictOf(f, m, n)
    ensures Blocked(f, Above(f, m, n), n) == Blocked(f, m, n)
  {
    forall d | d in Preds(f.adj, n) ensures Lookup(Above(f, m, n), d) == Lookup(m, d) {
      EdgeIsBelow(f.adj, d, n);
    }
    hide ValidFlow, Above, VerdictOf, Blocked, StrictlyBelow;
    VerdictLocal(f, Above(f, m, n), m, n);
    BlockedLocal(f, Above(f, m, n), m, n);
  }

  /** Of the tasks the given one draws arguments from, those with a result are ancestors. */
  ghost predicate Screened(f: Flow, m: map<Name, TaskResult>, n: Name)
    requires n in f.tasks
  {
    forall p :: p in f.tasks[n].inputMap && f.tasks[n].inputMap[p] in m ==>
        StrictlyBelow(f.adj, f.tasks[n].inputMap[p], n)
  }

  lemma EvalAbove(f: Flow, m: map<Name, TaskResult>, n: Name)
    requires ValidFlow(f) && n in f.tasks && Screened(f, m, n)
    ensures EvalOne(f, m, n) == EvalOne(f, Above(f, m, n), n)
  {
    AboveIsEnough(f, m, n);
    assert KwargsOf(f, m, n) == KwargsOf(f, Above(f, m, n), n);
    hide Blocked, VerdictOf, KwargsOf, OutcomeOf, Above;
  }

  lemma SameAbove(f: Flow, m1: map<Name, TaskResult>, m2: map<Name, TaskResult>, n: Name)
    requires forall a :: StrictlyBelow(f.adj, a, n) ==> Lookup(m1, a) == Lookup(m2, a)
    ensures Above(f, m1, n) == Above(f, m2, n)
  {
    hide StrictlyBelow;
    forall a | StrictlyBelow(f.adj, a, n) ensures (a in m1 <==> a in m2) && (a in m1 ==> m1[a] == m2[a]) {
      assert Lookup(m1, a) == Lookup(m2, a);
    }
  }

  /** One more task of the order: it is new, and all its ancestors come before it. */
  lemma NextOfOrder(f: Flow, order: seq<Name>, k: nat)
    requires Orders(f, order) && k < |order|
    ensures order[k] in f.tasks && order[k] !in order[..k]
    ensures order[..k + 1] == order[..k] + [order[k]]
    ensures Elems(order[..k + 1]) == Elems(order[..k]) + {order[k]}
    ensures Preds(f.adj, order[k]) <= Elems(order[..k])
  {
    assert order[k] in order;
  }

  lemma AncestorBefore(f: Flow, order: seq<Name>, a: Name, n: Name)
    requires ValidFlow(f) && Orders(f, order) && StrictlyBelow(f.adj, a, n)
    ensures a in order && n in order && IndexOf(order, a) < IndexOf(order, n)
  {
    var p :| IsPath(f.adj, p) && |p| >= 2 && p[0] == a && p[|p| - 1] == n;
    hide IsPath;
    PathPointsForward(f.adj, order, p);
  }

  lemma IndexInPrefix(f: Flow, order: seq<Name>, k: nat, n: Name)
    requires Orders(f, order) && k <= |order| && n in order
    ensures n in order[..k] <==> IndexOf(order, n) < k
  {
    if n in order[..k] {
      var i :| 0 <= i < k && order[i] == n;
      assert i == IndexOf(order, n);
    }
  }

  /** When a task's turn comes, the tasks it draws arguments from that have a result are its ancestors. */
  lemma PrefixScreened(f: Flow, order: seq<Name>, k: nat, m: map<Name, TaskResult>)
    requires ValidFlow(f) && Orders(f, order) && k < |order| && order[k] in f.tasks
    requires forall p :: p in f.tasks[order[k]].inputMap ==> Comparable(f, f.tasks[order[k]].inputMap[p], order[k])
    requires m.Keys <= Elems(order[..k])
    ensures Screened(f, m, order[k])
  {
    var n := order[k];
    forall p | p in f.tasks[n].inputMap && f.tasks[n].inputMap[p] in m
      ensures StrictlyBelow(f.adj, f.tasks[n].inputMap[p], n)
    {
      var source := f.tasks[n].inputMap[p];
      assert source in order[..k];
      BeforeIsNotBelow(f, order, k, source);
      hide StrictlyBelow, ValidFlow;
    }
  }

  lemma BeforeIsNotBelow(f: Flow, order: seq<Name>, k: nat, v: Name)
    requires ValidFlow(f) && Orders(f, order) && k < |order| && v in order[..k]
    ensures v in f.tasks && v != order[k] && !StrictlyBelow(f.adj, order[k], v)
  {
    assert v in order;
    assert order[k] in order && IndexOf(order, order[k]) == k;
    IndexInPrefix(f, order, k, v);
    if StrictlyBelow(f.adj, order[k], v) {
      AncestorBefore(f, order, order[k], v);
    }
  }

  lemma EvalPrefixStep(f: Flow, order: seq<Name>, k: nat)
    requires k < |order| && forall n :: n in order ==> n in f.tasks
    ensures order[k] in f.tasks
    ensures EvalPrefix(f, order, k + 1) == WithOutcome(f, EvalPrefix(f, order, k), order[k])
    ensures WithOutcome(f, EvalPrefix(f, order, k), order[k]).Keys <= EvalPrefix(f, order, k).Keys + {order[k]}
  {
    hide EvalOne;
  }

  lemma {:induction false} PrefixKeys(f: Flow, order: seq<Name>, k: nat)
    requires k <= |order| && forall n :: n in order ==> n in f.tasks
    ensures EvalPrefix(f, order, k).Keys <= Elems(order[..k])
  {
    if k > 0 {
      PrefixKeys(f, order, k - 1);
      NextKeys(f, order, k - 1);
    }
  }

  lemma NextKeys(f: Flow, order: seq<Name>, k: nat)
    requires k < |order| && forall n :: n in order ==> n in f.tasks
    requires EvalPrefix(f, order, k).Keys <= Elems(order[..k])
    ensures EvalPrefix(f, order, k + 1).Keys <= Elems(order[..k + 1])
  {
    EvalPrefixStep(f, order, k);
    assert order[..k + 1] == order[..k] + [order[k]];
    assert Elems(order[..k + 1]) == Elems(order[..k]) + {order[k]};
    hide *;
  }

  /** What is evaluated when a task's turn comes stays. */
  lemma {:induction false} PrefixStays(f: Flow, order: seq<Name>, j: nat, i: nat, k: nat)
    requires Orders(f, order) && j < i <= k <= |order|
    ensures Lookup(EvalPrefix(f, order, k), order[j]) == Lookup(EvalPrefix(f, order, i), order[j])
  {
    hide *;
    if i < k {
      PrefixStays(f, order, j, i, k - 1);
      StaysOnce(f, order, j, k - 1);
    }
  }

  lemma StaysOnce(f: Flow, order: seq<Name>, j: nat, k: nat)
    requires Orders(f, order) && j < k < |order|
    ensures Lookup(EvalPrefix(f, order, k + 1), order[j]) == Lookup(EvalPrefix(f, order, k), order[j])
  {
    assert order[k] != order[j];
    EvalPrefixStep(f, order, k);
    hide EvalPrefix, Orders, WithOutcome, Lookup;
    OthersStay(f, EvalPrefix(f, order, k), order[k], order[j]);
  }

  lemma OthersStay(f: Flow, m: map<Name, TaskResult>, n: Name, other: Name)
    requires n in f.tasks && n != other
    ensures Lookup(WithOutcome(f, m, n), other) == Lookup(m, other)
  {
    hide EvalOne;
  }

  /** A task's result is what it is evaluated to when its turn comes. */
  lemma EvaluatedInTurn(f: Flow, order: seq<Name>, k: nat)
    requires Orders(f, order) && k < |order| && order[k] in f.tasks
    ensures Lookup(Evaluate(f, order), order[k]) == EvalOne(f, EvalPrefix(f, order, k), order[k])
  {
    hide EvalOne;
    PrefixKeys(f, order, k);
    NextOfOrder(f, order, k);
    PrefixStays(f, order, k, k + 1, |order|);
  }

  lemma PrefixAbove(f: Flow, order: seq<Name>, k: nat)
    requires ValidFlow(f) && Orders(f, order) && k < |order|
    ensures Above(f, EvalPrefix(f, order, k), order[k]) == Above(f, Evaluate(f, order), order[k])
  {
    var n := order[k];
    assert n in order && IndexOf(order, n) == k;
    forall a | StrictlyBelow(f.adj, a, n)
      ensures Lookup(EvalPrefix(f, order, k), a) == Lookup(Evaluate(f, order), a)
    {
      AncestorBefore(f, order, a, n);
      IndexInPrefix(f, order, k, a);
      hide StrictlyBelow, EvalPrefix;
      PrefixStays(f, order, IndexOf(order, a), k, |order|);
    }
    hide StrictlyBelow, EvalPrefix, Above, Evaluate;
    SameAbove(f, EvalPrefix(f, order, k), Evaluate(f, order), n);
  }

  /** A task whose inputs are ordered gets the result that follows from its ancestors' results. */
  lemma EvaluatedRight(f: Flow, order: seq<Name>, n: Name)
    requires ValidFlow(f) && Orders(f, order) && n in f.tasks
    requires forall p :: p in f.tasks[n].inputMap ==> Comparable(f, f.tasks[n].inputMap[p], n)
    ensures LocallyRight(f, Evaluate(f, order), n)
  {
    assert n in Elems(order);
    var k := IndexOf(order, n);
    hide ValidFlow, Comparable, EvalOne, EvalPrefix, Above;
    PrefixKeys(f, order, k);
    PrefixScreened(f, order, k, EvalPrefix(f, order, k));
    EvalAbove(f, EvalPrefix(f, order, k), n);
    EvaluatedInTurn(f, order, k);
    PrefixAbove(f, order, k);
  }

  lemma EvaluateKeys(f: Flow, order: seq<Name>)
    requires Orders(f, order)
    ensures Evaluate(f, order).Keys <= f.tasks.Keys
  {
    PrefixKeys(f, order, |order|);
    assert order[..|order|] == order;
  }

  /** The evaluation of a workflow whose inputs fit what is given: every result that is not given follows
      from its ancestors'. */
  lemma EvaluateFitting(f: Flow, order: seq<Name>, given: set<Name>)
    requires ValidFlow(f) && InputsFit(f, given) && Orders(f, order)
    ensures Consistent(f, Evaluate(f, order), given)
  {
    EvaluateKeys(f, order);
    hide Evaluate, LocallyRight, ValidFlow, Settled, Comparable;
    forall n | n in f.tasks && n !in given ensures LocallyRight(f, Evaluate(f, order), n) {
      forall p | p in f.tasks[n].inputMap ensures Comparable(f, f.tasks[n].inputMap[p], n) {
        SettledIsComparable(f, given, f.tasks[n].inputMap[p], n);
      }
      EvaluatedRight(f, order, n);
    }
  }

  lemma EvaluateConsistent(f: Flow, order: seq<Name>)
    requires ValidFlow(f) && InputsOrdered(f) && Orders(f, order)
    ensures Consistent(f, Evaluate(f, order), {})
  {
    hide ValidFlow, InputsOrdered, Evaluate, Orders;
    OrderedFits(f, {});
    EvaluateFitting(f, order, {});
  }

  /** Results that follow from each other along the dependencies are determined by those that are given. */
  lemma {:induction false} ConsistentAgree(f: Flow, m1: map<Name, TaskResult>, m2: map<Name, TaskResult>,
                                           given: set<Name>, order: seq<Name>, k: nat)
    requires ValidFlow(f) && Orders(f, order) && k <= |order|
    requires Consistent(f, m1, given) && Consistent(f, m2, given)
    requires forall n :: n in given ==> Lookup(m1, n) == Lookup(m2, n)
    ensures forall n :: n in order[..k] ==> Lookup(m1, n) == Lookup(m2, n)
  {
    if k > 0 {
      hide *;
      ConsistentAgree(f, m1, m2, given, order, k - 1);
      NextOfOrder(f, order, k - 1);
      AgreeOnNext(f, m1, m2, given, order, k - 1);
      forall n | n in order[..k] ensures Lookup(m1, n) == Lookup(m2, n) {
        assert n in order[..k - 1] || n == order[k - 1];
      }
    }
  }

  lemma AgreeOnNext(f: Flow, m1: map<Name, TaskResult>, m2: map<Name, TaskResult>, given: set<Name>,
                    order: seq<Name>, k: nat)
    requires ValidFlow(f) && Orders(f, order) && k < |order| && order[k] in f.tasks
    requires Consistent(f, m1, given) && Consistent(f, m2, given)
    requires forall n :: n in given || n in order[..k] ==> Lookup(m1, n) == Lookup(m2, n)
    ensures Lookup(m1, order[k]) == Lookup(m2, order[k])
  {
    var n := order[k];
    if n !in given {
      assert n in order && IndexOf(order, n) == k;
      forall a | StrictlyBelow(f.adj, a, n) ensures Lookup(m1, a) == Lookup(m2, a) {
        AncestorBefore(f, order, a, n);
        IndexInPrefix(f, order, k, a);
      }
      assert LocallyRight(f, m1, n) && LocallyRight(f, m2, n);
      hide EvalOne, Lookup, Above, StrictlyBelow;
      SameAbove(f, m1, m2, n);
    }
  }

  lemma ConsistentUnique(f: Flow, m1: map<Name, TaskResult>, m2: map<Name, TaskResult>, given: set<Name>,
                         order: seq<Name>)
    requires ValidFlow(f) && Orders(f, order)
    requires Consistent(f, m1, given) && Consistent(f, m2, given)
    requires forall n :: n in given ==> Lookup(m1, n) == Lookup(m2, n)
    ensures m1 == m2
  {
    ConsistentAgree(f, m1, m2, given, order, |order|);
    assert order[..|order|] == order;
    forall n | n in f.tasks ensures Lookup(m1, n) == Lookup(m2, n) {
      assert n in Elems(order);
    }
    LookupsDetermine(m1, m2, f.tasks.Keys);
  }

  lemma LookupsDetermine(m1: map<Name, TaskResult>, m2: map<Name, TaskResult>, names: set<Name>)
    requires m1.Keys <= names && m2.Keys <= names
    requires forall n :: n in names ==> Lookup(m1, n) == Lookup(m2, n)
    ensures m1 == m2
  {
    forall n ensures (n in m1 <==> n in m2) && (n in m1 ==> m1[n] == m2[n]) {
      if n in names {
        assert Lookup(m1, n) == Lookup(m2, n);
      }
    }
  }

  /** The evaluator may take any topological order. */
  lemma OrderDoesNotMatter(f: Flow, order1: seq<Name>, order2: seq<Name>)
    requires ValidFlow(f) && InputsOrdered(f) && Orders(f, order1) && Orders(f, order2)
    ensures Evaluate(f, order1) == Evaluate(f, order2)
  {
    EvaluateConsistent(f, order1);
    EvaluateConsistent(f, order2);
    ConsistentUnique(f, Evaluate(f, order1), Evaluate(f, order2), {}, order1);
  }
}
