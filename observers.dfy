/** Observer lists and what the core does when it walks one while removing from it.
    The core walks a Python list with `for f in lst:` and, inside the loop body, may call
    `lst.remove(f)` on the very list being walked. Python's list iterator keeps a position, so
    the element that slides into the freed slot is never visited. `LiveSweep` states that walk
    exactly; the lemmas below state what it does and does not visit. */
module Observers {
  import opened Lists

  /** A callback connected to a parameter or a component, known by its identity only. */
  type Observer = nat

  /** The walk over the live list `lst` from position `i`: each visited observer is recorded,
      and an observer in `drop` is removed (`lst.remove(f)`) before the walk moves on to
      position `i + 1` of the shortened list. Returns the visited observers, in order, and
      the list left behind. */
  function LiveFrom(lst: seq<Observer>, i: nat, drop: set<Observer>): (seq<Observer>, seq<Observer>)
    decreases |lst| - i
  {
    if i >= |lst| then ([], lst)
    else
      var f := lst[i];
      var rest := LiveFrom(if f in drop then RemoveFirst(lst, f) else lst, i + 1, drop);
      ([f] + rest.0, rest.1)
  }

  /** The whole walk, from the first position. */
  function LiveSweep(lst: seq<Observer>, drop: set<Observer>): (seq<Observer>, seq<Observer>)
  {
    LiveFrom(lst, 0, drop)
  }

  /** When nothing visited is dropped, every observer from position `i` on is visited once, in
      order, and the list is left unchanged. */
  lemma {:induction false} LiveFromNothingDropped(lst: seq<Observer>, i: nat, drop: set<Observer>)
    requires i <= |lst|
    requires forall k | i <= k < |lst| :: lst[k] !in drop
    ensures LiveFrom(lst, i, drop) == (lst[i..], lst)
    decreases |lst| - i
  {
    if i < |lst| {
      LiveFromNothingDropped(lst, i + 1, drop);
      assert lst[i..] == [lst[i]] + lst[i + 1..];
    }
  }

  /** Over a list without duplicates, the walk keeps the list free of duplicates, and an observer
      stays in the list exactly when it was not both visited and dropped. */
  lemma {:induction false} LiveFromRemaining(lst: seq<Observer>, i: nat, drop: set<Observer>)
    requires NoDup(lst)
    ensures NoDup(LiveFrom(lst, i, drop).1)
    ensures forall x :: x in LiveFrom(lst, i, drop).1 <==>
                          x in lst && !(x in LiveFrom(lst, i, drop).0 && x in drop)
    decreases |lst| - i
  {
    if i < |lst| {
      var f := lst[i];
      var next := if f in drop then RemoveFirst(lst, f) else lst;
      LiveFromRemaining(next, i + 1, drop);
      var rest := LiveFrom(next, i + 1, drop);
      assert LiveFrom(lst, i, drop) == ([f] + rest.0, rest.1);
      forall x
        ensures x in rest.1 <==> x in lst && !(x in [f] + rest.0 && x in drop)
      {
        if x == f && f in drop {
          assert x !in next;
        }
      }
    }
  }

  /** Observers that sit before position `i` are never visited and are never removed, so long as
      the list has no duplicates. */
  lemma {:induction false} LiveFromSkipsEarlier(lst: seq<Observer>, i: nat, drop: set<Observer>, k: nat)
    requires NoDup(lst)
    requires k < i && k < |lst|
    ensures lst[k] !in LiveFrom(lst, i, drop).0
    ensures lst[k] in LiveFrom(lst, i, drop).1
    decreases |lst| - i
  {
    if i < |lst| {
      var f := lst[i];
      var next := if f in drop then RemoveFirst(lst, f) else lst;
      if f in drop {
        RemoveFirstAt(lst, i);
      }
      assert next[k] == lst[k];
      LiveFromSkipsEarlier(next, i + 1, drop, k);
      NoDupAt(lst);
      assert lst[k] != f;
    }
  }

  /** The observer that directly follows a dropped one is skipped: never visited in this walk,
      and still registered after it. (The source's own notification loop therefore does not call
      the observer that follows a failing one.) */
  lemma SkipsSuccessorOfDropped(lst: seq<Observer>, i: nat, drop: set<Observer>)
    requires NoDup(lst)
    requires i + 1 < |lst| && lst[i] in drop
    ensures lst[i + 1] !in LiveFrom(lst, i, drop).0
    ensures lst[i + 1] in LiveFrom(lst, i, drop).1
  {
    var next := RemoveFirst(lst, lst[i]);
    RemoveFirstAt(lst, i);
    assert next[i] == lst[i + 1];
    LiveFromSkipsEarlier(next, i + 1, drop, i);
  }

  /** The positions 0, 2, 4, ... of a sequence. */
  function Evens(s: seq<Observer>): seq<Observer>
  {
    if s == [] then [] else [s[0]] + (if |s| >= 2 then Evens(s[2..]) else [])
  }

  /** The positions 1, 3, 5, ... of a sequence. */
  function Odds(s: seq<Observer>): seq<Observer>
  {
    if |s| < 2 then [] else [s[1]] + Odds(s[2..])
  }

  /** Deleting position `k` of a list whose every position from `k` on is dropped leaves a list
      whose every position from `k` on is dropped. */
  lemma DeleteAt(lst: seq<Observer>, k: nat, drop: set<Observer>, next: seq<Observer>)
    requires k < |lst| && next == lst[..k] + lst[k + 1..]
    requires forall j | k <= j < |lst| :: lst[j] in drop
    ensures forall j | k <= j < |next| :: next[j] in drop
  {
    forall j | k <= j < |lst| - 1
      ensures next[j] in drop
    {
      assert next[j] == lst[j + 1];
    }
  }

  /** One step of the walk over a dropped observer. */
  lemma LiveFromDropped(lst: seq<Observer>, i: nat, drop: set<Observer>)
    requires i < |lst| && lst[i] in drop
    ensures LiveFrom(lst, i, drop)
         == ([lst[i]] + LiveFrom(RemoveFirst(lst, lst[i]), i + 1, drop).0,
             LiveFrom(RemoveFirst(lst, lst[i]), i + 1, drop).1)
  {
  }

  /** `Evens` and `Odds` of a sequence of at least two elements, one pair at a time. */
  lemma EvensOddsStep(s: seq<Observer>)
    requires |s| >= 2
    ensures Evens(s) == [s[0]] + Evens(s[2..])
    ensures Odds(s) == [s[1]] + Odds(s[2..])
  {
  }

  /** The last step of a walk that drops everything: the single remaining observer is visited
      and removed. */
  lemma DropLast(lst: seq<Observer>, k: nat, drop: set<Observer>)
    requires NoDup(lst) && k + 1 == |lst| && lst[k] in drop
    ensures LiveFrom(lst, k, drop) == (Evens(lst[k..]), lst[..k] + Odds(lst[k..]))
  {
    RemoveFirstAt(lst, k);
    assert RemoveFirst(lst, lst[k]) == lst[..k];
    assert LiveFrom(lst[..k], k + 1, drop) == ([], lst[..k]);
    assert lst[k..] == [lst[k]];
    assert Evens(lst[k..]) == [lst[k]] && Odds(lst[k..]) == [];
    assert lst[..k] + Odds(lst[k..]) == lst[..k];
  }

  /** A walk that starts past the end visits nothing and leaves the list as it is. */
  lemma DropNone(lst: seq<Observer>, drop: set<Observer>)
    ensures LiveFrom(lst, |lst|, drop) == (Evens(lst[|lst|..]), lst[..|lst|] + Odds(lst[|lst|..]))
  {
    assert lst[..|lst|] == lst && lst[|lst|..] == [];
    assert Evens([]) == [] && Odds([]) == [];
    assert lst + [] == lst;
  }

  /** The two halves of a list with position `k` deleted, in terms of the original list. */
  lemma DeletedSlices(lst: seq<Observer>, k: nat, next: seq<Observer>)
    requires k + 1 < |lst| && next == lst[..k] + lst[k + 1..]
    ensures next[k + 1..] == lst[k + 2..]
    ensures next[..k + 1] == lst[..k] + [lst[k + 1]]
  {
  }

  /** One step of a walk that drops everything, given the rest of the walk over the shortened
      list. */
  lemma DropStep(lst: seq<Observer>, k: nat, drop: set<Observer>)
    requires k + 1 < |lst| && lst[k] in drop
    requires RemoveFirst(lst, lst[k]) == lst[..k] + lst[k + 1..]
    requires LiveFrom(RemoveFirst(lst, lst[k]), k + 1, drop)
          == (Evens(lst[k + 2..]), lst[..k] + [lst[k + 1]] + Odds(lst[k + 2..]))
    ensures LiveFrom(lst, k, drop) == (Evens(lst[k..]), lst[..k] + Odds(lst[k..]))
  {
    LiveFromDropped(lst, k, drop);
    var s := lst[k..];
    assert s[2..] == lst[k + 2..] && s[0] == lst[k] && s[1] == lst[k + 1];
    EvensOddsStep(s);
    assert [lst[k]] + Evens(lst[k + 2..]) == Evens(s);
    assert lst[..k] + [lst[k + 1]] + Odds(lst[k + 2..]) == lst[..k] + Odds(s);
  }

  /** A walk that drops every observer it visits (the twin-detach loop) visits and removes only
      the observers at even offsets from where it starts, and leaves the others registered. */
  lemma {:induction false} DropAllKeepsOdds(lst: seq<Observer>, k: nat, drop: set<Observer>)
    requires NoDup(lst) && k <= |lst|
    requires forall j | k <= j < |lst| :: lst[j] in drop
    ensures LiveFrom(lst, k, drop) == (Evens(lst[k..]), lst[..k] + Odds(lst[k..]))
    decreases |lst| - k
  {
    if k == |lst| {
      DropNone(lst, drop);
    } else if k + 1 == |lst| {
      DropLast(lst, k, drop);
    } else {
      RemoveFirstAt(lst, k);
      DeleteKeepsNoDup(lst, k);
      var next := RemoveFirst(lst, lst[k]);
      DeleteAt(lst, k, drop, next);
      DropAllKeepsOdds(next, k + 1, drop);
      DeletedSlices(lst, k, next);
      DropStep(lst, k, drop);
    }
  }
}
