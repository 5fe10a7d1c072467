/** The loop "for each item under the iterator, delete it if it qualifies, then take the next"
    that task_exit and the dispatcher run over a queue (kernel/dispatcher.c, lines 188-197 and
    240-246). Deleting the item under the iterator already moves the iterator, so the following
    queue_next skips one item; these functions say exactly which items leave and which stay. */
module Sweeps {
  import opened Queues

  /** What is left in the queue when the qualifying items are those in hit. */
  function Kept(s: seq<Ptr>, hit: set<Ptr>): seq<Ptr> {
    if |s| == 0 then []
    else if s[0] !in hit then [s[0]] + Kept(s[1..], hit)
    else if |s| == 1 then []
    else [s[1]] + Kept(s[2..], hit)
  }

  /** The items deleted, in the order of their deletion. */
  function Woken(s: seq<Ptr>, hit: set<Ptr>): seq<Ptr> {
    if |s| == 0 then []
    else if s[0] !in hit then Woken(s[1..], hit)
    else if |s| == 1 then [s[0]]
    else [s[0]] + Woken(s[2..], hit)
  }

  function Occurrences(s: seq<Ptr>, x: Ptr): nat {
    if |s| == 0 then 0 else (if s[0] == x then 1 else 0) + Occurrences(s[1..], x)
  }

  lemma OccurrencesOfCons(y: Ptr, rest: seq<Ptr>, x: Ptr)
    ensures Occurrences([y] + rest, x) == (if y == x then 1 else 0) + Occurrences(rest, x)
  {
    assert ([y] + rest)[1..] == rest;
  }

  lemma {:induction false} OccurrencesInMultiset(s: seq<Ptr>, x: Ptr)
    ensures multiset(s)[x] == Occurrences(s, x)
  {
    if |s| > 0 {
      OccurrencesInMultiset(s[1..], x);
      assert s == [s[0]] + s[1..];
    }
  }

  lemma {:induction false} SweepOccurrences(s: seq<Ptr>, hit: set<Ptr>, x: Ptr)
    ensures Occurrences(s, x) == Occurrences(Kept(s, hit), x) + Occurrences(Woken(s, hit), x)
    decreases |s|
  {
    if |s| == 0 {
    } else if s[0] !in hit {
      SweepOccurrences(s[1..], hit, x);
      OccurrencesOfCons(s[0], Kept(s[1..], hit), x);
    } else if |s| == 1 {
      assert s == [s[0]];
    } else {
      SweepOccurrences(s[2..], hit, x);
      assert s[1..][1..] == s[2..];
      OccurrencesOfCons(s[1], Kept(s[2..], hit), x);
      OccurrencesOfCons(s[0], Woken(s[2..], hit), x);
    }
  }

  lemma {:induction false} WokenQualify(s: seq<Ptr>, hit: set<Ptr>)
    ensures forall x :: x in Woken(s, hit) ==> x in hit
    decreases |s|
  {
    if |s| > 0 && s[0] !in hit {
      WokenQualify(s[1..], hit);
    } else if |s| > 1 {
      WokenQualify(s[2..], hit);
    }
  }

  /** The loop loses and duplicates nothing. */
  lemma SweepPartitions(s: seq<Ptr>, hit: set<Ptr>)
    ensures multiset(s) == multiset(Kept(s, hit)) + multiset(Woken(s, hit))
    ensures forall x :: x in Woken(s, hit) ==> x in hit
  {
    WokenQualify(s, hit);
    forall x
      ensures multiset(s)[x] == multiset(Kept(s, hit))[x] + multiset(Woken(s, hit))[x]
    {
      SweepOccurrences(s, hit, x);
      OccurrencesInMultiset(s, x);
      OccurrencesInMultiset(Kept(s, hit), x);
      OccurrencesInMultiset(Woken(s, hit), x);
    }
  }

  lemma MemberOfSweep(s: seq<Ptr>, hit: set<Ptr>, x: Ptr)
    requires Distinct(s)
    ensures x in s <==> x in Kept(s, hit) || x in Woken(s, hit)
    ensures !(x in Kept(s, hit) && x in Woken(s, hit))
  {
    SweepPartitions(s, hit);
    DistinctMultiset(s, x);
    assert x in s <==> x in multiset(s);
    assert x in Kept(s, hit) <==> x in multiset(Kept(s, hit));
    assert x in Woken(s, hit) <==> x in multiset(Woken(s, hit));
  }

  lemma {:induction false} DistinctMultiset(s: seq<Ptr>, x: Ptr)
    requires Distinct(s)
    ensures multiset(s)[x] <= 1
  {
    if |s| > 0 {
      DistinctMultiset(s[1..], x);
      assert s == [s[0]] + s[1..];
      assert s[0] !in s[1..];
    }
  }

  lemma MultisetDistinct(s: seq<Ptr>)
    requires forall x :: multiset(s)[x] <= 1
    ensures Distinct(s)
  {
    forall i, j | 0 <= i < j < |s|
      ensures s[i] != s[j]
    {
      assert multiset(s) == multiset(s[..j]) + multiset{s[j]} + multiset(s[j + 1..]) by {
        assert s == s[..j] + [s[j]] + s[j + 1..];
      }
      assert multiset(s)[s[j]] <= 1;
      assert s[i] == s[..j][i];
    }
  }

  lemma SweepDistinct(s: seq<Ptr>, hit: set<Ptr>)
    requires Distinct(s)
    ensures Distinct(Kept(s, hit)) && Distinct(Woken(s, hit))
  {
    SweepPartitions(s, hit);
    forall x
      ensures multiset(Kept(s, hit))[x] <= 1 && multiset(Woken(s, hit))[x] <= 1
    {
      DistinctMultiset(s, x);
    }
    MultisetDistinct(Kept(s, hit));
    MultisetDistinct(Woken(s, hit));
  }

  lemma TailDistinct(s: seq<Ptr>, n: nat)
    requires Distinct(s) && n <= |s|
    ensures Distinct(s[n..]) && forall k :: 0 <= k < n ==> s[k] !in s[n..]
  {
  }

  /** How far one turn of the loop gets. */
  function Skip(s: seq<Ptr>, hit: set<Ptr>): (n: nat)
    requires |s| > 0
    ensures 1 <= n <= |s|
  {
    if s[0] in hit && |s| > 1 then 2 else 1
  }

  lemma WokenLater(s: seq<Ptr>, hit: set<Ptr>, j: nat)
    requires Distinct(s) && |s| > 0 && Skip(s, hit) <= j < |s|
    ensures s[j] in Woken(s, hit) <==> s[j] in Woken(s[Skip(s, hit)..], hit)
  {
    assert s[j] != s[0];
  }

  lemma WokenFirst(s: seq<Ptr>, hit: set<Ptr>, j: nat)
    requires Distinct(s) && |s| > 0 && j < Skip(s, hit)
    ensures s[j] in Woken(s, hit) <==> j == 0 && s[0] in hit
  {
    var n := Skip(s, hit);
    TailDistinct(s, n);
    MemberOfSweep(s[n..], hit, s[j]);
  }

  /** Exactly which items are deleted: those that qualify and do not directly follow a deleted one. */
  lemma {:induction false} WokenExactly(s: seq<Ptr>, hit: set<Ptr>, i: nat)
    requires Distinct(s) && i < |s|
    ensures s[i] in Woken(s, hit) <==> s[i] in hit && !(i > 0 && s[i - 1] in Woken(s, hit))
    decreases |s|
  {
    var n := Skip(s, hit);
    if i < n {
      WokenFirst(s, hit, i);
      WokenFirst(s, hit, 0);
    } else {
      TailDistinct(s, n);
      WokenExactly(s[n..], hit, i - n);
      WokenLater(s, hit, i);
      if i - 1 < n {
        WokenFirst(s, hit, i - 1);
      } else {
        WokenLater(s, hit, i - 1);
      }
    }
  }

  /** How many items in a row, the one at i the last of them, qualify. */
  function Stretch(s: seq<Ptr>, hit: set<Ptr>, i: nat): nat
    requires i < |s|
  {
    if s[i] !in hit then 0 else 1 + if i == 0 then 0 else Stretch(s, hit, i - 1)
  }

  /** Which items are deleted, from the queue alone: in a stretch of qualifying items the first, the
      third, the fifth and so on. */
  lemma {:induction false} WokenByParity(s: seq<Ptr>, hit: set<Ptr>, i: nat)
    requires Distinct(s) && i < |s|
    ensures s[i] in Woken(s, hit) <==> Stretch(s, hit, i) % 2 == 1
    decreases i
  {
    WokenExactly(s, hit, i);
    if i > 0 {
      WokenByParity(s, hit, i - 1);
    }
  }

  predicate BothHit(s: seq<Ptr>, hit: set<Ptr>, i: nat)
    requires i + 1 < |s|
  {
    s[i] in hit && s[i + 1] in hit
  }

  /** Every qualifying item is deleted if and only if no two neighbours qualify. */
  lemma AllWokenIff(s: seq<Ptr>, hit: set<Ptr>)
    requires Distinct(s)
    ensures (forall x :: x in s && x in hit ==> x in Woken(s, hit)) <==>
            (forall i :: 0 <= i < |s| - 1 ==> !BothHit(s, hit, i))
  {
    forall i | 0 <= i < |s| - 1 && BothHit(s, hit, i)
      ensures s[i] !in Woken(s, hit) || s[i + 1] !in Woken(s, hit)
    {
      WokenExactly(s, hit, i + 1);
    }
    forall x | x in s && x in hit && x !in Woken(s, hit)
      ensures exists i :: 0 <= i < |s| - 1 && BothHit(s, hit, i)
    {
      var i := IndexOf(s, x);
      WokenExactly(s, hit, i);
      SweepPartitions(s, hit);
      assert BothHit(s, hit, i - 1);
    }
  }

  /** Three waiters in a row: the one in the middle is left behind. */
  lemma MiddleLeftBehind()
    ensures Woken([1, 2, 3], {1, 2, 3}) == [1, 3] && Kept([1, 2, 3], {1, 2, 3}) == [2]
  {
    assert [1, 2, 3][2..] == [3];
  }

  /** A qualifying item left in the queue directly followed a deleted one. */
  lemma LeftBehind(s: seq<Ptr>, hit: set<Ptr>, i: nat)
    requires Distinct(s) && i < |s| && s[i] in hit && s[i] in Kept(s, hit)
    ensures i > 0 && s[i - 1] in hit && s[i - 1] in Woken(s, hit)
  {
    MemberOfSweep(s, hit, s[i]);
    WokenExactly(s, hit, i);
    WokenExactly(s, hit, i - 1);
  }

  /** The only qualifying item is always deleted. */
  lemma SoleHitIsWoken(s: seq<Ptr>, hit: set<Ptr>, x: Ptr)
    requires Distinct(s) && x in s && x in hit
    requires forall y :: y in s && y in hit ==> y == x
    ensures Woken(s, hit) == [x]
  {
    var i := IndexOf(s, x);
    WokenExactly(s, hit, i);
    if i > 0 && s[i - 1] in Woken(s, hit) {
      WokenExactly(s, hit, i - 1);
      assert false;
    }
    var w := Woken(s, hit);
    SweepDistinct(s, hit);
    forall k | 0 <= k < |w|
      ensures w[k] == x
    {
      MemberOfSweep(s, hit, w[k]);
      SweepPartitions(s, hit);
    }
    if |w| > 1 {
      TwoDiffer(w, 0, 1);
      assert false;
    }
  }

  lemma TwoDiffer(s: seq<Ptr>, i: nat, j: nat)
    requires Distinct(s) && i < j < |s|
    ensures s[i] != s[j]
  {
  }

  /** An item moves at least one place forward for each earlier deletion, and never backward. */
  lemma {:induction false} KeptMovesForward(s: seq<Ptr>, hit: set<Ptr>, x: Ptr)
    requires Distinct(s) && x in s && x in Kept(s, hit)
    ensures IndexOf(Kept(s, hit), x) <= IndexOf(s, x)
    ensures x in hit ==> IndexOf(Kept(s, hit), x) < IndexOf(s, x)
    decreases |s|
  {
    MemberOfSweep(s, hit, x);
    if s[0] !in hit {
      if x != s[0] {
        TailDistinct(s, 1);
        assert x in s[1..] && x in Kept(s[1..], hit);
        KeptMovesForward(s[1..], hit, x);
        IndexInTail(s, x, 1);
        IndexInTail(Kept(s, hit), x, 1);
        assert Kept(s, hit)[1..] == Kept(s[1..], hit);
      }
    } else {
      assert |s| > 1 && x != s[0];
      if x == s[1] {
        assert IndexOf(s, x) == 1;
      } else {
        TailDistinct(s, 2);
        assert x in s[2..] && x in Kept(s[2..], hit);
        KeptMovesForward(s[2..], hit, x);
        IndexInTail(s, x, 2);
        IndexInTail(Kept(s, hit), x, 1);
        assert Kept(s, hit)[1..] == Kept(s[2..], hit);
      }
    }
  }

  lemma IndexInTail(s: seq<Ptr>, x: Ptr, n: nat)
    requires n <= |s| && x !in s[..n] && x in s[n..]
    ensures IndexOf(s, x) == n + IndexOf(s[n..], x)
  {
    var i := IndexOf(s, x);
    assert forall k :: 0 <= k < n ==> s[k] == s[..n][k];
    assert s[n..][i - n] == x;
  }

  // ----- one iteration of the loop -----

  /** What the queue will hold when a loop that has reached the cursor is over. */
  function Outcome(q: QState, hit: set<Ptr>): seq<Ptr>
    requires q.cursor <= |q.items|
  {
    q.items[..q.cursor] + Kept(q.items[q.cursor..], hit)
  }

  /** What such a loop has still to delete. */
  function Coming(q: QState, hit: set<Ptr>): seq<Ptr>
    requires q.cursor <= |q.items|
  {
    Woken(q.items[q.cursor..], hit)
  }

  lemma PassOver(q: QState, hit: set<Ptr>)
    requires q.cursor < |q.items| && q.Item() !in hit
    ensures Outcome(q.Next(), hit) == Outcome(q, hit) && Coming(q.Next(), hit) == Coming(q, hit)
  {
    assert q.items[q.cursor..][1..] == q.items[q.cursor + 1..];
  }

  /** Deleting the item under the cursor leaves the cursor in place, on what followed. */
  lemma CursorAfterDelete(q: QState)
    requires q.cursor < |q.items| && Distinct(q.items)
    ensures var q1 := q.Del(q.Item());
      q1.cursor == q.cursor && q1.items == q.items[..q.cursor] + q.items[q.cursor + 1..]
  {
    assert IndexOf(q.items, q.Item()) == q.cursor;
  }

  lemma FirstHit(x: Ptr, rest: seq<Ptr>, hit: set<Ptr>)
    requires x in hit
    ensures Kept([x] + rest, hit) == if |rest| == 0 then [] else [rest[0]] + Kept(rest[1..], hit)
    ensures Woken([x] + rest, hit) == [x] + if |rest| == 0 then [] else Woken(rest[1..], hit)
  {
    var s := [x] + rest;
    assert |rest| > 0 ==> s[1] == rest[0] && s[2..] == rest[1..];
  }

  lemma SplitAfterFirst(a: seq<Ptr>, rest: seq<Ptr>)
    requires |rest| > 0
    ensures (a + rest)[..|a| + 1] == a + [rest[0]] && (a + rest)[|a| + 1..] == rest[1..]
  {
  }

  lemma Regroup(a: seq<Ptr>, y: Ptr, b: seq<Ptr>)
    ensures (a + [y]) + b == a + ([y] + b)
  {
  }

  lemma NothingLeft(a: seq<Ptr>)
    ensures a[..|a|] == a && a[|a|..] == [] && a + [] == a
  {
  }

  lemma AfterDelete(a: seq<Ptr>, x: Ptr, rest: seq<Ptr>, q1: QState, hit: set<Ptr>)
    requires x in hit && q1 == QState(a + rest, |a| + if |rest| > 0 then 1 else 0)
    ensures Outcome(q1, hit) == a + Kept([x] + rest, hit)
    ensures Woken([x] + rest, hit) == [x] + Coming(q1, hit)
  {
    FirstHit(x, rest, hit);
    if |rest| > 0 {
      SplitAfterFirst(a, rest);
      Regroup(a, rest[0], Kept(rest[1..], hit));
    } else {
      NothingLeft(a);
      assert a + rest == a;
    }
  }

  lemma DeleteUnderCursor(q: QState, hit: set<Ptr>)
    requires q.cursor < |q.items| && q.Item() in hit && Distinct(q.items)
    ensures var q1 := q.Del(q.Item()).Next();
      q1.cursor <= |q1.items| && Outcome(q1, hit) == Outcome(q, hit) &&
      Coming(q, hit) == [q.Item()] + Coming(q1, hit) && |q1.items| - q1.cursor < |q.items| - q.cursor
  {
    CursorAfterDelete(q);
    var a, x, rest := q.items[..q.cursor], q.Item(), q.items[q.cursor + 1..];
    assert q.items[q.cursor..] == [x] + rest;
    AfterDelete(a, x, rest, q.Del(x).Next(), hit);
  }
}
