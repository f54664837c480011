/**
  Publishing the rule book. A call changes the book under the mutex, flattens it under the
  mutex again, and hands the list to the endpoint after unlocking. Calls of different
  goroutines interleave between these three steps.
 */
module Publishing {
  import opened Gateway

  type Rules = map<string, seq<nat>>

  // Where a call stands; a flattened list belongs to a version of the book.
  datatype Call = Changed | Flattened(version: nat, list: seq<nat>)

  // `books` holds every version of the rule book; `current` is the version of the published list.
  datatype State = State(books: seq<Rules>, calls: map<nat, Call>, published: seq<nat>, current: nat)

  datatype Step = Change(call: nat, book: Rules) | Flatten(call: nat, list: seq<nat>) | Publish(call: nat)

  function Newest(s: State): int {
    |s.books| - 1
  }

  ghost predicate Next(s: State, step: Step, t: State) {
    match step
    case Change(c, book) => c !in s.calls && t == s.(books := s.books + [book], calls := s.calls[c := Changed])
    case Flatten(c, list) =>
      && c in s.calls && s.calls[c].Changed? && |s.books| > 0 && Publishes(s.books[|s.books| - 1], list)
      && t == s.(calls := s.calls[c := Flattened(|s.books| - 1, list)])
    case Publish(c) =>
      && c in s.calls && s.calls[c].Flattened?
      && t == s.(calls := s.calls - {c}, published := s.calls[c].list, current := s.calls[c].version)
  }

  ghost predicate IsRun(states: seq<State>, steps: seq<Step>) {
    && |states| == |steps| + 1 && states[0] == State([map[]], map[], [], 0)
    && forall i :: 0 <= i < |steps| ==> Next(states[i], steps[i], states[i + 1])
  }

  // Every list is the publication of its version.
  ghost predicate Inv(s: State) {
    && s.current < |s.books| && Publishes(s.books[s.current], s.published)
    && forall c :: c in s.calls && s.calls[c].Flattened? ==>
                     s.calls[c].version < |s.books| && Publishes(s.books[s.calls[c].version], s.calls[c].list)
  }

  lemma NothingPublished()
    ensures Publishes(map[], [])
  {
    var none: Rules := map[];
    assert Lists([], none.Keys) && InBlocks(none, [], [0], []);
    BlocksPublish(none, [], [0], []);
  }

  lemma StepKeepsInv(s: State, step: Step, t: State)
    requires Inv(s) && Next(s, step, t)
    ensures Inv(t)
  {
  }

  /** In every interleaving what is published is some version of the rule book, whole. */
  lemma {:induction false} RunKeepsInv(states: seq<State>, steps: seq<Step>, i: nat)
    requires IsRun(states, steps) && i <= |steps|
    ensures Inv(states[i])
  {
    if i > 0 {
      RunKeepsInv(states, steps, i - 1);
      assert Next(states[i - 1], steps[i - 1], states[i - 1 + 1]);
      StepKeepsInv(states[i - 1], steps[i - 1], states[i]);
    } else {
      NothingPublished();
    }
  }

  // No book is changed while another call is on its way.
  ghost predicate Serial(states: seq<State>, steps: seq<Step>)
    requires |states| == |steps| + 1
  {
    forall i :: 0 <= i < |steps| && steps[i].Change? ==> states[i].calls == map[]
  }

  // At most one call is on its way, and with none the newest version is published.
  ghost predicate UpToDate(s: State) {
    && (s.calls == map[] ==> s.current == Newest(s))
    && (forall c, d :: c in s.calls && d in s.calls ==> c == d)
    && (forall c :: c in s.calls && s.calls[c].Flattened? ==> s.calls[c].version == Newest(s))
  }

  lemma {:induction false} SerialIsUpToDate(states: seq<State>, steps: seq<Step>, i: nat)
    requires IsRun(states, steps) && Serial(states, steps) && i <= |steps|
    ensures UpToDate(states[i])
  {
    if i > 0 {
      SerialIsUpToDate(states, steps, i - 1);
      assert Next(states[i - 1], steps[i - 1], states[i - 1 + 1]);
    }
  }

  /** When calls do not overlap, the book is published whenever none is on its way. */
  lemma SerialPublishesTheBook(states: seq<State>, steps: seq<Step>, i: nat)
    requires IsRun(states, steps) && Serial(states, steps) && i <= |steps| && states[i].calls == map[]
    ensures |states[i].books| > 0 && Publishes(states[i].books[|states[i].books| - 1], states[i].published)
  {
    RunKeepsInv(states, steps, i);
    SerialIsUpToDate(states, steps, i);
  }

  ghost predicate ChangedBetween(steps: seq<Step>, i: nat, j: nat) {
    exists k :: i <= k < j && k < |steps| && steps[k].Change?
  }

  lemma {:induction false} BooksGrow(states: seq<State>, steps: seq<Step>, i: nat, j: nat)
    requires IsRun(states, steps) && i <= j <= |steps|
    ensures |states[i].books| <= |states[j].books|
    ensures |states[i].books| < |states[j].books| <==> ChangedBetween(steps, i, j)
    decreases j
  {
    if i < j {
      BooksGrow(states, steps, i, j - 1);
      assert Next(states[j - 1], steps[j - 1], states[j - 1 + 1]);
      assert steps[j - 1].Change? ==> ChangedBetween(steps, i, j);
    }
  }

  // Call c flattens at step k and publishes at step i, and not in between.
  ghost predicate Carries(steps: seq<Step>, c: nat, k: nat, i: nat) {
    && k < i < |steps| && steps[k].Flatten? && steps[k].call == c && steps[i] == Publish(c)
    && forall m :: k < m < i ==> steps[m] != Publish(c)
  }

  lemma {:induction false} ListIsKept(states: seq<State>, steps: seq<Step>, c: nat, k: nat, j: nat)
    requires IsRun(states, steps) && k < j <= |steps| && steps[k].Flatten? && steps[k].call == c
    requires forall m :: k < m < j ==> steps[m] != Publish(c)
    ensures c in states[j].calls && states[j].calls[c].Flattened?
    ensures states[j].calls[c].version == |states[k].books| - 1 && states[j].calls[c].list == steps[k].list
    decreases j
  {
    assert Next(states[j - 1], steps[j - 1], states[j - 1 + 1]);
    if k < j - 1 {
      ListIsKept(states, steps, c, k, j - 1);
    }
  }

  /**
    When calls overlap, a publication puts the newest version in place exactly when no
    call changed the book after the publishing call had flattened it.
   */
  lemma NewestExactly(states: seq<State>, steps: seq<Step>, c: nat, k: nat, i: nat)
    requires IsRun(states, steps) && Carries(steps, c, k, i)
    ensures states[i + 1].current == Newest(states[i + 1]) <==> !ChangedBetween(steps, k, i)
  {
    ListIsKept(states, steps, c, k, i);
    BooksGrow(states, steps, k, i);
    assert Next(states[i], steps[i], states[i + 1]);
  }

  lemma RunSnoc(states: seq<State>, steps: seq<Step>, step: Step, t: State)
    requires IsRun(states, steps) && Next(states[|steps|], step, t)
    ensures IsRun(states + [t], steps + [step])
  {
    var more, all := states + [t], steps + [step];
    forall i | 0 <= i < |all| ensures Next(more[i], all[i], more[i + 1]) {
      if i < |steps| {
        assert Next(states[i], steps[i], states[i + 1]);
      }
    }
  }

  // The step of call c that changes the book and flattens it at once.
  lemma ChangeAndFlatten(states: seq<State>, steps: seq<Step>, c: nat, book: Rules, list: seq<nat>)
    returns (more: seq<State>, taken: seq<Step>)
    requires IsRun(states, steps) && c !in states[|steps|].calls && Publishes(book, list)
    ensures IsRun(more, taken) && |taken| == |steps| + 2
    ensures var s := states[|steps|];
      more[|taken|] == s.(books := s.books + [book], calls := s.calls[c := Flattened(|s.books|, list)])
  {
    var s := states[|steps|];
    var t := s.(books := s.books + [book], calls := s.calls[c := Changed]);
    var u := t.(calls := t.calls[c := Flattened(|t.books| - 1, list)]);
    RunSnoc(states, steps, Change(c, book), t);
    RunSnoc(states + [t], steps + [Change(c, book)], Flatten(c, list), u);
    more, taken := states + [t] + [u], steps + [Change(c, book)] + [Flatten(c, list)];
    assert u.calls == s.calls[c := Flattened(|s.books|, list)];
  }

  /** Two overlapping installs of one triple: the first flattens before the second, publishes after it, and wins. */
  lemma OlderListWins() returns (states: seq<State>, steps: seq<Step>)
    ensures IsRun(states, steps)
    ensures var s := states[|steps|];
      s.calls == map[] && |s.books| == 3 && s.current == 1 && !Publishes(s.books[2], s.published)
  {
    var a: Rules, b: Rules := map["k" := [1]], map["k" := [2]];
    OneKey(a, [1]);
    OneKey(b, [2]);
    states, steps := ChangeAndFlatten([State([map[]], map[], [], 0)], [], 1, a, [1]);
    states, steps := ChangeAndFlatten(states, steps, 2, b, [2]);
    var s := states[|steps|];
    var t := s.(calls := s.calls - {2}, published := [2], current := 2);
    RunSnoc(states, steps, Publish(2), t);
    var u := t.(calls := t.calls - {1}, published := [1], current := 1);
    RunSnoc(states + [t], steps + [Publish(2)], Publish(1), u);
    states, steps := states + [t] + [u], steps + [Publish(2)] + [Publish(1)];
    assert u.calls == map[];
  }

  // A book with one key publishes its one rule set.
  lemma OneKey(book: Rules, list: seq<nat>)
    requires book == map["k" := list]
    ensures forall l :: Publishes(book, l) <==> l == list
  {
    assert book.Keys == {"k"} && Lists(["k"], book.Keys);
    assert list[0..|list|] == list && IsBlock(book, "k", list, 0, |list|);
    BlocksPublish(book, ["k"], [0, |list|], list);
    forall l | Publishes(book, l) ensures l == list {
      PublicationIsDetermined(book, l, list);
    }
  }
}
