/**
 The lock-free push / take-all list of src/genmc_sll_test.c, for any number of producers and
 consumers, with the memory orders of the source.

 The stores to `list` are kept in modification order. A relaxed load or a failing
 compare-exchange may return any of them that is not older than what the thread saw before; a
 succeeding compare-exchange and an exchange act on the newest one. Each store remembers the
 nodes whose `next` was written before it in the happens-before order of an acquire load: a
 release adds the producer's own node, and every read-modify-write passes on what it replaces.
 */
module LockFreeList {

  datatype Ptr = Null | Node(i: nat) | Deleted

  datatype Store = Store(head: Ptr, published: set<nat>)

  datatype Producer = Producer(pc: ProducerPc, seen: nat, failures: nat)
  datatype ProducerPc = Starting | Trying | Pushed

  datatype Consumer =
    | Waiting
    | Deleting(head: Ptr, visible: set<nat>)

  datatype State = State(next: seq<Ptr>, list: seq<Store>, producers: seq<Producer>, consumers: seq<Consumer>)

  datatype Step =
    | Load(i: nat, k: nat)      // line 32, returning store k
    | CasOk(i: nat)             // line 33
    | CasFail(i: nat, k: nat)   // line 33, for another value or spuriously
    | Exchange(j: nat)          // line 42
    | Delete(j: nat)            // lines 46 to 50

  function Initial(n: nat, m: nat): State {
    State(seq(n, _ => Null), [Store(Null, {})], seq(n, _ => Producer(Starting, 0, 0)), seq(m, _ => Waiting))
  }

  function Newest(s: State): Store
    requires s.list != []
  {
    s.list[|s.list| - 1]
  }

  ghost predicate Enabled(s: State, step: Step) {
    && s.list != [] && |s.producers| == |s.next|
    && match step
       case Load(i, k) => i < |s.producers| && s.producers[i].pc.Starting? && s.producers[i].seen <= k < |s.list|
       case CasOk(i) => i < |s.producers| && s.producers[i].pc.Trying? && s.next[i] == Newest(s).head
       case CasFail(i, k) => i < |s.producers| && s.producers[i].pc.Trying? && s.producers[i].seen <= k < |s.list|
       case Exchange(j) => j < |s.consumers| && s.consumers[j].Waiting?
       case Delete(j) => j < |s.consumers| && s.consumers[j].Deleting? && s.consumers[j].head.Node?
                         && s.consumers[j].head.i < |s.next|
  }

  function Apply(s: State, step: Step): State
    requires Enabled(s, step)
  {
    match step
    case Load(i, k) =>
      s.(next := s.next[i := s.list[k].head],
         producers := s.producers[i := s.producers[i].(pc := Trying, seen := k)])
    case CasOk(i) =>
      s.(list := s.list + [Store(Node(i), Newest(s).published + {i})],
         producers := s.producers[i := s.producers[i].(pc := Pushed)])
    case CasFail(i, k) =>
      var failed := if s.list[k].head == s.next[i] then 0 else 1;
      s.(next := s.next[i := s.list[k].head],
         producers := s.producers[i := s.producers[i].(seen := k, failures := s.producers[i].failures + failed)])
    case Exchange(j) =>
      s.(list := s.list + [Store(Null, Newest(s).published)],
         consumers := s.consumers[j := Deleting(Newest(s).head, Newest(s).published)])
    case Delete(j) =>
      var orphan := s.consumers[j].head.i;
      s.(next := s.next[orphan := Deleted],
         consumers := s.consumers[j := s.consumers[j].(head := s.next[orphan])])
  }

  /** The specification: one stack with an atomic push and an atomic take-all. Each node is in
      exactly one place. */
  datatype Place = Unpublished | Shared | Private(j: nat) | Gone

  datatype Spec = Spec(place: seq<Place>, stack: seq<nat>, taken: seq<seq<nat>>)

  function SpecInitial(n: nat, m: nat): Spec {
    Spec(seq(n, _ => Unpublished), [], seq(m, _ => []))
  }

  ghost predicate SpecEnabled(a: Spec, step: Step) {
    match step
    case CasOk(i) => i < |a.place| && a.place[i].Unpublished?
    case Exchange(j) => j < |a.taken| && a.taken[j] == []
    case Delete(j) => j < |a.taken| && a.taken[j] != [] && a.taken[j][0] < |a.place|
    case _ => true
  }

  function SpecApply(a: Spec, step: Step): Spec
    requires SpecEnabled(a, step)
  {
    match step
    case CasOk(i) => a.(place := a.place[i := Shared], stack := [i] + a.stack)
    case Exchange(j) =>
      a.(place := seq(|a.place|, i requires 0 <= i < |a.place| => if a.place[i].Shared? then Private(j) else a.place[i]),
         stack := [], taken := a.taken[j := a.stack])
    case Delete(j) =>
      a.(place := a.place[a.taken[j][0] := Gone], taken := a.taken[j := a.taken[j][1..]])
    case _ => a
  }

  /** Following next from p visits exactly the nodes of chain, and ends. */
  ghost predicate Chain(next: seq<Ptr>, p: Ptr, chain: seq<nat>)
    decreases |chain|
  {
    if chain == [] then p == Null
    else p == Node(chain[0]) && chain[0] < |next| && Chain(next, next[chain[0]], chain[1..])
  }

  ghost predicate NoDuplicates(chain: seq<nat>) {
    forall i, j :: 0 <= i < j < |chain| ==> chain[i] != chain[j]
  }

  /** chain lists the nodes that are at place p, each once. */
  ghost predicate Lists(place: seq<Place>, chain: seq<nat>, p: Place) {
    && NoDuplicates(chain)
    && (forall x :: x in chain ==> x < |place| && place[x] == p)
    && (forall x :: 0 <= x < |place| && place[x] == p ==> x in chain)
  }

  /** The list in memory represents the specification's state. */
  ghost predicate Refines(s: State, a: Spec) {
    && s.list != [] && |s.next| == |s.producers| == |a.place| && |s.consumers| == |a.taken|
    && Chain(s.next, Newest(s).head, a.stack) && Lists(a.place, a.stack, Shared)
    && (forall j :: 0 <= j < |a.taken| ==> ConsumerRefines(s, a, j))
    && (forall i :: 0 <= i < |a.place| ==> NodeRefines(s, a, i))
    && (forall k :: 0 <= k < |s.list| ==> !s.list[k].head.Deleted?)
  }

  ghost predicate ConsumerRefines(s: State, a: Spec, j: nat)
    requires j < |s.consumers| && j < |a.taken|
  {
    && Lists(a.place, a.taken[j], Private(j))
    && match s.consumers[j]
       case Waiting => a.taken[j] == []
       case Deleting(head, visible) =>
         Chain(s.next, head, a.taken[j]) && forall x :: x in a.taken[j] ==> x in visible
  }

  ghost predicate NodeRefines(s: State, a: Spec, i: nat)
    requires s.list != [] && i < |s.next| && i < |a.place| && i < |s.producers|
  {
    && (s.next[i].Deleted? <==> a.place[i].Gone?)
    && (s.producers[i].pc.Pushed? <==> !a.place[i].Unpublished?)
    && (a.place[i].Private? ==> a.place[i].j < |a.taken|)
    && (a.place[i].Shared? ==> i in Newest(s).published)
  }

  lemma {:induction false} InitialRefines(n: nat, m: nat)
    ensures Refines(Initial(n, m), SpecInitial(n, m))
  {
  }

  /** Writing the next of a node outside a chain keeps the chain. */
  lemma {:induction false} ChainFrame(next: seq<Ptr>, p: Ptr, chain: seq<nat>, i: nat, q: Ptr)
    requires Chain(next, p, chain) && i < |next| && i !in chain
    ensures Chain(next[i := q], p, chain)
    decreases |chain|
  {
    if chain != [] {
      assert chain[0] in chain;
      assert forall x :: x in chain[1..] ==> x in chain;
      ChainFrame(next, next[chain[0]], chain[1..], i, q);
    }
  }

  /** A write to the next of an unpublished node is invisible to the specification. */
  lemma {:induction false} UnpublishedWrite(s: State, a: Spec, i: nat, q: Ptr, p: Producer)
    requires Refines(s, a) && i < |s.next| && !s.producers[i].pc.Pushed? && !q.Deleted? && !p.pc.Pushed?
    ensures Refines(s.(next := s.next[i := q], producers := s.producers[i := p]), a)
  {
    var t := s.(next := s.next[i := q], producers := s.producers[i := p]);
    assert NodeRefines(s, a, i);
    ChainFrame(s.next, Newest(s).head, a.stack, i, q);
    forall j | 0 <= j < |a.taken| ensures ConsumerRefines(t, a, j) {
      assert ConsumerRefines(s, a, j);
      if s.consumers[j].Deleting? {
        ChainFrame(s.next, s.consumers[j].head, a.taken[j], i, q);
      }
    }
    forall x | 0 <= x < |a.place| ensures NodeRefines(t, a, x) {
      assert NodeRefines(s, a, x);
    }
  }

  lemma {:induction false} PushRefines(s: State, a: Spec, i: nat)
    requires Refines(s, a) && Enabled(s, CasOk(i))
    ensures SpecEnabled(a, CasOk(i)) && Refines(Apply(s, CasOk(i)), SpecApply(a, CasOk(i)))
  {
    assert NodeRefines(s, a, i);
    var t, b := Apply(s, CasOk(i)), SpecApply(a, CasOk(i));
    assert b.stack[1..] == a.stack;
    assert Lists(b.place, b.stack, Shared);
    forall j | 0 <= j < |b.taken| ensures ConsumerRefines(t, b, j) {
      assert ConsumerRefines(s, a, j);
    }
    forall x | 0 <= x < |b.place| ensures NodeRefines(t, b, x) {
      assert NodeRefines(s, a, x);
    }
  }

  lemma {:induction false} TakeRefines(s: State, a: Spec, j: nat)
    requires Refines(s, a) && Enabled(s, Exchange(j))
    ensures SpecEnabled(a, Exchange(j)) && Refines(Apply(s, Exchange(j)), SpecApply(a, Exchange(j)))
  {
    assert ConsumerRefines(s, a, j);
    var t, b := Apply(s, Exchange(j)), SpecApply(a, Exchange(j));
    forall x | 0 <= x < |b.place| ensures NodeRefines(t, b, x) {
      assert NodeRefines(s, a, x);
    }
    forall x | x in a.stack ensures x in Newest(s).published && b.place[x] == Private(j) {
      assert NodeRefines(s, a, x);
    }
    assert Lists(b.place, b.taken[j], Private(j));
    forall l | 0 <= l < |b.taken| ensures ConsumerRefines(t, b, l) {
      assert ConsumerRefines(s, a, l);
    }
  }

  /** Deleting: the node is the consumer's own, it is not deleted yet, and its next was written
      before the consumer could see it. */
  lemma {:induction false} DeleteSafe(s: State, a: Spec, j: nat)
    requires Refines(s, a) && Enabled(s, Delete(j))
    ensures SpecEnabled(a, Delete(j)) && s.consumers[j].head == Node(a.taken[j][0])
    ensures a.place[s.consumers[j].head.i] == Private(j)
    ensures !s.next[s.consumers[j].head.i].Deleted?
    ensures s.consumers[j].head.i in s.consumers[j].visible
  {
    assert ConsumerRefines(s, a, j);
    assert a.taken[j][0] in a.taken[j];
    assert NodeRefines(s, a, a.taken[j][0]);
  }

  lemma {:induction false} DeleteRefines(s: State, a: Spec, j: nat)
    requires Refines(s, a) && Enabled(s, Delete(j))
    ensures SpecEnabled(a, Delete(j)) && Refines(Apply(s, Delete(j)), SpecApply(a, Delete(j)))
  {
    DeleteSafe(s, a, j);
    var t, b := Apply(s, Delete(j)), SpecApply(a, Delete(j));
    var orphan := a.taken[j][0];
    assert a.place[orphan] == Private(j);
    ChainFrame(s.next, Newest(s).head, a.stack, orphan, Deleted);
    forall x | 0 <= x < |b.place| ensures NodeRefines(t, b, x) {
      assert NodeRefines(s, a, x);
    }
    forall l | 0 <= l < |b.taken| ensures ConsumerRefines(t, b, l) {
      assert ConsumerRefines(s, a, l);
      if l == j {
        assert a.taken[j] == [orphan] + b.taken[j];
        assert orphan !in b.taken[j];
        assert forall x :: x in a.taken[j] <==> x == orphan || x in b.taken[j];
        ChainFrame(s.next, s.next[orphan], b.taken[j], orphan, Deleted);
      } else if s.consumers[l].Deleting? {
        ChainFrame(s.next, s.consumers[l].head, a.taken[l], orphan, Deleted);
      }
    }
  }

  /** Every step of a thread is a step of the atomic stack, or no step of it at all. */
  lemma {:induction false} StepRefines(s: State, a: Spec, step: Step)
    requires Refines(s, a) && Enabled(s, step)
    ensures SpecEnabled(a, step) && Refines(Apply(s, step), SpecApply(a, step))
  {
    match step
    case Load(i, k) => UnpublishedWrite(s, a, i, s.list[k].head, s.producers[i].(pc := Trying, seen := k));
    case CasOk(i) => PushRefines(s, a, i);
    case CasFail(i, k) => UnpublishedWrite(s, a, i, s.list[k].head, Apply(s, step).producers[i]);
    case Exchange(j) => TakeRefines(s, a, j);
    case Delete(j) => DeleteRefines(s, a, j);
  }

  ghost predicate Run(s: State, steps: seq<Step>, t: State)
    decreases |steps|
  {
    if steps == [] then s == t else Enabled(s, steps[0]) && Run(Apply(s, steps[0]), steps[1..], t)
  }

  ghost predicate SpecRun(a: Spec, steps: seq<Step>, b: Spec)
    decreases |steps|
  {
    if steps == [] then a == b else SpecEnabled(a, steps[0]) && SpecRun(SpecApply(a, steps[0]), steps[1..], b)
  }

  /** Every execution of the threads is an execution of the atomic stack. */
  lemma {:induction false} RunRefines(s: State, a: Spec, steps: seq<Step>, t: State) returns (b: Spec)
    requires Refines(s, a) && Run(s, steps, t)
    ensures SpecRun(a, steps, b) && Refines(t, b)
    decreases |steps|
  {
    if steps == [] {
      b := a;
    } else {
      StepRefines(s, a, steps[0]);
      b := RunRefines(Apply(s, steps[0]), SpecApply(a, steps[0]), steps[1..], t);
    }
  }

  /** The assertion of the consumer never fails, and its read of next is not a race. */
  lemma {:induction false} NeverDeletedTwice(n: nat, m: nat, steps: seq<Step>, t: State, j: nat)
    requires Run(Initial(n, m), steps, t) && Enabled(t, Delete(j))
    ensures !t.next[t.consumers[j].head.i].Deleted?
    ensures t.consumers[j].head.i in t.consumers[j].visible
  {
    InitialRefines(n, m);
    var b := RunRefines(Initial(n, m), SpecInitial(n, m), steps, t);
    DeleteSafe(t, b, j);
  }

  ghost function PushedSet(s: State): set<nat> { set i: nat | i < |s.producers| && s.producers[i].pc.Pushed? }

  ghost function TakenSet(s: State): set<nat> { set j: nat | j < |s.consumers| && s.consumers[j].Deleting? }

  /** Each thread stores to the list once; a compare-exchange fails for another value only by
      seeing a newer store. */
  ghost predicate FailuresBounded(s: State) {
    && |s.next| == |s.producers| && s.list != []
    && |s.list| == 1 + |PushedSet(s)| + |TakenSet(s)|
    && forall i :: 0 <= i < |s.producers| ==>
         && s.producers[i].seen < |s.list|
         && s.producers[i].failures <= s.producers[i].seen
         && s.producers[i].failures <= |s.producers| - 1 + |s.consumers|
         && (s.producers[i].pc.Trying? ==> s.next[i] == s.list[s.producers[i].seen].head)
  }

  lemma {:induction false} SubsetOfRange(x: set<nat>, n: nat)
    requires forall i :: i in x ==> i < n
    ensures |x| <= n
    decreases n
  {
    if n > 0 {
      SubsetOfRange(x - {n - 1}, n - 1);
    } else {
      assert x == {};
    }
  }

  lemma {:induction false} ListLength(s: State, i: nat)
    requires FailuresBounded(s) && i < |s.producers| && !s.producers[i].pc.Pushed?
    ensures |s.list| <= |s.producers| + |s.consumers|
  {
    SubsetOfRange(PushedSet(s) + {i}, |s.producers|);
    SubsetOfRange(TakenSet(s), |s.consumers|);
  }

  lemma {:induction false} LoadBounded(s: State, i: nat, k: nat)
    requires FailuresBounded(s) && Enabled(s, Load(i, k))
    ensures FailuresBounded(Apply(s, Load(i, k)))
  {
    var t := Apply(s, Load(i, k));
    assert PushedSet(t) == PushedSet(s) && TakenSet(t) == TakenSet(s);
  }

  lemma {:induction false} CasOkBounded(s: State, i: nat)
    requires FailuresBounded(s) && Enabled(s, CasOk(i))
    ensures FailuresBounded(Apply(s, CasOk(i)))
  {
    var t := Apply(s, CasOk(i));
    assert PushedSet(t) == PushedSet(s) + {i} && TakenSet(t) == TakenSet(s);
  }

  lemma {:induction false} CasFailBounded(s: State, i: nat, k: nat)
    requires FailuresBounded(s) && Enabled(s, CasFail(i, k))
    ensures FailuresBounded(Apply(s, CasFail(i, k)))
  {
    var t := Apply(s, CasFail(i, k));
    ListLength(s, i);
    assert PushedSet(t) == PushedSet(s) && TakenSet(t) == TakenSet(s);
  }

  lemma {:induction false} ExchangeBounded(s: State, j: nat)
    requires FailuresBounded(s) && Enabled(s, Exchange(j))
    ensures FailuresBounded(Apply(s, Exchange(j)))
  {
    var t := Apply(s, Exchange(j));
    assert PushedSet(t) == PushedSet(s);
    assert j !in TakenSet(s) && TakenSet(t) == TakenSet(s) + {j};
  }

  lemma {:induction false} DeleteBounded(s: State, j: nat)
    requires FailuresBounded(s) && Enabled(s, Delete(j)) && s.producers[s.consumers[j].head.i].pc.Pushed?
    ensures FailuresBounded(Apply(s, Delete(j)))
  {
    var t := Apply(s, Delete(j));
    assert PushedSet(t) == PushedSet(s) && TakenSet(t) == TakenSet(s);
  }

  lemma {:induction false} StepBounded(s: State, a: Spec, step: Step)
    requires Refines(s, a) && FailuresBounded(s) && Enabled(s, step)
    ensures FailuresBounded(Apply(s, step))
  {
    match step
    case Load(i, k) => LoadBounded(s, i, k);
    case CasOk(i) => CasOkBounded(s, i);
    case CasFail(i, k) => CasFailBounded(s, i, k);
    case Exchange(j) => ExchangeBounded(s, j);
    case Delete(j) =>
      DeleteSafe(s, a, j);
      assert NodeRefines(s, a, s.consumers[j].head.i);
      DeleteBounded(s, j);
  }

  lemma {:induction false} RunBounded(s: State, a: Spec, steps: seq<Step>, t: State)
    requires Refines(s, a) && FailuresBounded(s) && Run(s, steps, t)
    ensures FailuresBounded(t)
    decreases |steps|
  {
    if steps != [] {
      StepRefines(s, a, steps[0]);
      StepBounded(s, a, steps[0]);
      RunBounded(Apply(s, steps[0]), SpecApply(a, steps[0]), steps[1..], t);
    }
  }

  /** In every execution each producer fails at most n - 1 + m times for a real reason. */
  lemma {:induction false} FewFailures(n: nat, m: nat, steps: seq<Step>, t: State, i: nat)
    requires Run(Initial(n, m), steps, t) && i < |t.producers|
    ensures |t.producers| == n && |t.consumers| == m
    ensures t.producers[i].failures <= n - 1 + m
  {
    InitialRefines(n, m);
    var s := Initial(n, m);
    assert PushedSet(s) == {} && TakenSet(s) == {};
    RunBounded(s, SpecInitial(n, m), steps, t);
    RunKeepsThreads(s, steps, t);
  }

  lemma {:induction false} RunKeepsThreads(s: State, steps: seq<Step>, t: State)
    requires Run(s, steps, t)
    ensures |t.producers| == |s.producers| && |t.consumers| == |s.consumers| && |t.next| == |s.next|
    decreases |steps|
  {
    if steps != [] {
      RunKeepsThreads(Apply(s, steps[0]), steps[1..], t);
    }
  }

  ghost predicate Joined(s: State) {
    && (forall i :: 0 <= i < |s.producers| ==> s.producers[i].pc.Pushed?)
    && (forall j :: 0 <= j < |s.consumers| ==> s.consumers[j].Deleting? && s.consumers[j].head.Null?)
  }

  ghost function DeletedSet(next: seq<Ptr>): set<nat> { set i: nat | i < |next| && next[i].Deleted? }

  ghost function Elements(chain: seq<nat>): set<nat> { set x | x in chain }

  lemma {:induction false} ElementCount(chain: seq<nat>)
    requires NoDuplicates(chain)
    ensures |Elements(chain)| == |chain|
    decreases |chain|
  {
    if chain == [] {
      assert Elements(chain) == {};
    } else {
      ElementCount(chain[1..]);
      assert chain == [chain[0]] + chain[1..];
      assert chain[0] !in chain[1..];
      assert Elements(chain) == Elements(chain[1..]) + {chain[0]};
    }
  }

  ghost function Range(n: nat): (r: set<nat>)
    ensures forall i :: i in r <==> 0 <= i < n
    ensures |r| == n
  {
    if n == 0 then {} else Range(n - 1) + {n - 1}
  }

  /** When all threads are done, every node is on the list or deleted, and never both. */
  lemma {:induction false} AllAccountedFor(s: State, a: Spec)
    requires Refines(s, a) && Joined(s)
    ensures |a.stack| + |DeletedSet(s.next)| == |s.next|
  {
    forall j | 0 <= j < |a.taken| ensures forall i :: 0 <= i < |a.place| ==> a.place[i] != Private(j) {
      assert ConsumerRefines(s, a, j);
    }
    forall i | 0 <= i < |s.next| ensures i in a.stack <==> !s.next[i].Deleted? {
      assert NodeRefines(s, a, i);
    }
    var shared := Elements(a.stack);
    assert shared !! DeletedSet(s.next);
    assert shared + DeletedSet(s.next) == Range(|s.next|);
    ElementCount(a.stack);
  }

  /** The first counting loop of main: it terminates, with the length of the list. */
  method CountList(next: seq<Ptr>, list: Ptr, ghost chain: seq<nat>) returns (count: nat)
    requires Chain(next, list, chain)
    ensures count == |chain|
  {
    var l := list;
    count := 0;
    ghost var rest := chain;
    while l != Null
      invariant Chain(next, l, rest) && count + |rest| == |chain|
      decreases |rest|
    {
      count := count + 1;
      l := next[l.i];
      rest := rest[1..];
    }
  }

  /** The second counting loop of main. */
  method CountDeleted(next: seq<Ptr>) returns (count: nat)
    ensures count == |DeletedSet(next)|
  {
    count := 0;
    ghost var seen: set<nat> := {};
    for i := 0 to |next|
      invariant seen == set x: nat | x < i && next[x].Deleted?
      invariant count == |seen|
    {
      if next[i] == Deleted {
        count := count + 1;
        seen := seen + {i};
      }
    }
    assert seen == DeletedSet(next);
  }

  /** main after the joins: the final assertion holds after every execution. */
  method FinalCount(n: nat, m: nat, ghost steps: seq<Step>, t: State) returns (count: nat, deleted: nat)
    requires Run(Initial(n, m), steps, t) && Joined(t)
    ensures count + deleted == n
  {
    InitialRefines(n, m);
    ghost var b := RunRefines(Initial(n, m), SpecInitial(n, m), steps, t);
    RunKeepsThreads(Initial(n, m), steps, t);
    AllAccountedFor(t, b);
    count := CountList(t.next, Newest(t).head, b.stack);
    deleted := CountDeleted(t.next);
  }
}
