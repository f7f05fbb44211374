/** One pass of a job thread over a dictionary: every entry is served once, in any order. */
module Passes {
  import opened Common

  /**
   What a pass is to make of each entry, the deadlines of the entries left behind, and
   which of them will have to be acted on.
   */
  datatype Plan<B> = Plan(
    first: map<int, B>, result: map<int, Option<B>>, left: map<int, real>, due: set<int>)

  /**
   The first `i` keys are what the plan says, the others as they were, and `next` is
   the earliest of `wakeup` and the deadlines left behind so far.
   */
  ghost predicate Passed<B>(p: Plan<B>, current: map<int, B>, todo: seq<int>, i: nat, wakeup: real, next: real)
    requires i <= |todo|
  {
    && current.Keys <= p.first.Keys
    && (forall k :: k in todo[i..] ==> k in current && k in p.first && current[k] == p.first[k])
    && (forall k :: k in todo[..i] ==> k in p.result && Get(current, k) == p.result[k])
    && (forall k :: k in todo[..i] && k in p.due && k in p.left ==> next <= p.left[k])
    && next <= wakeup
    && (next == wakeup || exists k :: k in todo[..i] && k in p.left && next == p.left[k])
  }

  lemma PassStart<B>(p: Plan<B>, todo: seq<int>, wakeup: real)
    requires Enumerates(todo, p.first.Keys)
    ensures Passed(p, p.first, todo, 0, wakeup, wakeup)
  {
  }

  lemma PassAt<B>(p: Plan<B>, current: map<int, B>, todo: seq<int>, i: nat, wakeup: real, next: real)
    requires i < |todo| && Passed(p, current, todo, i, wakeup, next)
    ensures todo[i] in current && todo[i] in p.first && current[todo[i]] == p.first[todo[i]]
    ensures current.Keys <= p.first.Keys
  {
    assert todo[i..][0] == todo[i];
  }

  /** Serving one more key. */
  lemma PassNext<B>(p: Plan<B>, before: map<int, B>, after: map<int, B>, todo: seq<int>, i: nat,
                    wakeup: real, earlier: real, next: real)
    requires i < |todo| && Enumerates(todo, p.first.Keys) && Passed(p, before, todo, i, wakeup, earlier)
    requires todo[i] in p.result && after == Put(before, todo[i], p.result[todo[i]])
    requires next <= earlier && (todo[i] in p.due && todo[i] in p.left ==> next <= p.left[todo[i]])
    requires next == earlier || (todo[i] in p.left && next == p.left[todo[i]])
    ensures Passed(p, after, todo, i + 1, wakeup, next)
  {
    NextKey(todo, i);
    assert todo[i..][0] == todo[i];
    forall k | k in todo[..i + 1] ensures k in p.result && Get(after, k) == p.result[k] {
      if k != todo[i] { assert Get(after, k) == Get(before, k); }
    }
    EarliestNext(p, todo, i, wakeup, earlier, next);
  }

  lemma EarliestNext<B>(p: Plan<B>, todo: seq<int>, i: nat, wakeup: real, earlier: real, next: real)
    requires i < |todo| && (forall k :: k in todo[..i + 1] <==> k == todo[i] || k in todo[..i])
    requires earlier == wakeup || exists k :: k in todo[..i] && k in p.left && earlier == p.left[k]
    requires next == earlier || (todo[i] in p.left && next == p.left[todo[i]])
    ensures next == wakeup || exists k :: k in todo[..i + 1] && k in p.left && next == p.left[k]
  {
    if next == earlier && next != wakeup {
      var k :| k in todo[..i] && k in p.left && earlier == p.left[k];
      assert k in todo[..i + 1] && k in p.left && next == p.left[k];
    } else if next != wakeup {
      var k := todo[i];
      assert k in todo[..i + 1] && k in p.left && next == p.left[k];
    }
  }

  /** The whole dictionary is what the plan says. */
  lemma PassDone<B>(p: Plan<B>, current: map<int, B>, todo: seq<int>, wakeup: real, next: real)
    requires Enumerates(todo, p.first.Keys) && Passed(p, current, todo, |todo|, wakeup, next)
    ensures forall k :: if k in p.first then k in p.result && Get(current, k) == p.result[k] else k !in current
    ensures forall k :: k in p.due && k in p.left && k in p.first ==> next <= p.left[k]
    ensures next <= wakeup && (next == wakeup || exists k :: k in p.first && k in p.left && next == p.left[k])
  {
    assert todo[..|todo|] == todo;
    forall k ensures if k in p.first then k in p.result && Get(current, k) == p.result[k] else k !in current {
      assert k in p.first ==> k in p.first.Keys && k in todo;
      assert k in current ==> k in p.first.Keys;
    }
    assert forall k :: k in p.due && k in p.first ==> k in p.first.Keys && k in todo;
    assert forall k :: k in todo ==> k in p.first.Keys;
  }

  /** The deadlines of the plan are those of the buffers left; zero means none. */
  ghost predicate PlanLeft<B>(p: Plan<B>, current: map<int, B>, deadlines: map<int, real>) {
    && (forall k :: k in current <==> k in deadlines)
    && (forall k :: k in current ==> k in p.first && k in p.left && p.left[k] == deadlines[k])
    && (forall k :: k in p.first && k in p.left ==> k in current)
    && (forall k :: k in p.left ==> (k in p.due <==> p.left[k] != 0.0))
  }
}
