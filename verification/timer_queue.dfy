/** The deterministic timer queue (TimerPriorityQueue.java).

    The Java class is a singly linked list of nodes, each holding a timer,
    kept in ascending order of `Timer.compareTo`; equal timers are kept in
    insertion order. Here the list is the sequence of its timers, and the
    comparator is an arbitrary `key` function standing in for the expiry
    time (`Timer` itself is not part of this model). Timers are compared
    by identity with `==`, exactly as `remove` does. */
module TimerQueue {
  import opened Jvm

  /** Non-decreasing by key: what `offer` maintains. */
  ghost predicate Sorted<T>(q: seq<T>, key: T -> int) {
    forall i, j :: 0 <= i < j < |q| ==> key(q[i]) <= key(q[j])
  }

  /** `peek`: the head timer, or null when the queue is empty; the queue is a
      value, so nothing is mutated. */
  function Peek<T>(q: seq<T>): (r: Option<T>)
    ensures r == None <==> q == []
    ensures r.Some? ==> r.value in q && r.value == q[0]
  {
    if |q| == 0 then None else Some(q[0])
  }

  /** On a sorted queue the head is a minimum: it is the timer due first. */
  lemma PeekIsEarliest<T>(q: seq<T>, key: T -> int)
    requires Sorted(q, key)
    requires q != []
    ensures forall x :: x in q ==> key(Peek(q).value) <= key(x)
  {
    forall x | x in q
      ensures key(q[0]) <= key(x)
    {
      var j :| 0 <= j < |q| && q[j] == x;
      if j > 0 {
        assert key(q[0]) <= key(q[j]);
      }
    }
  }

  /** Where `offer` links a new node: the index of the first node whose timer
      is strictly later than `t` (the `compareTo(...) < 0` test), or the end
      of the list when there is none. */
  ghost predicate IsInsertionPoint<T>(q: seq<T>, t: T, key: T -> int, i: int) {
    && 0 <= i <= |q|
    && (forall j :: 0 <= j < i ==> key(q[j]) <= key(t))
    && (i < |q| ==> key(t) < key(q[i]))
  }

  /** `offer(t)`: the walk of the Java loop over the list, starting at `first`
      with no previous node, stopping at the first strictly later timer. */
  method Offer<T>(q: seq<T>, t: T, key: T -> int) returns (r: seq<T>, ghost at: nat)
    ensures IsInsertionPoint(q, t, key, at)
    ensures r == q[..at] + [t] + q[at..]
    ensures r == Insert(q, t, key)
  {
    var current := 0;
    while current < |q|
      invariant 0 <= current <= |q|
      invariant forall j :: 0 <= j < current ==> key(q[j]) <= key(t)
    {
      if key(t) < key(q[current]) {
        // the first node later than t: insert between the previous node and it
        r, at := q[..current] + [t] + q[current..], current;
        InsertSplices(q, t, key);
        InsertionPointUnique(q, t, key, at, InsertionPoint(q, t, key));
        return;
      }
      current := current + 1;
    }
    // every existing timer goes first: t becomes the new last node
    r, at := q + [t], |q|;
    assert q[..|q|] == q && q[|q|..] == [];
    InsertSplices(q, t, key);
    InsertionPointUnique(q, t, key, at, InsertionPoint(q, t, key));
  }

  /** The same insertion as a function, for use inside other definitions. */
  function Insert<T>(q: seq<T>, t: T, key: T -> int): (r: seq<T>)
    ensures |r| == |q| + 1
  {
    if q == [] then [t]
    else if key(t) < key(q[0]) then [t] + q
    else [q[0]] + Insert(q[1..], t, key)
  }

  /** The insertion point of `Insert`, as the Java walk finds it. */
  function InsertionPoint<T>(q: seq<T>, t: T, key: T -> int): (i: nat)
    ensures IsInsertionPoint(q, t, key, i)
  {
    if q == [] then 0
    else if key(t) < key(q[0]) then 0
    else 1 + InsertionPoint(q[1..], t, key)
  }

  /** `Insert` splices `t` in at the insertion point and moves nothing else. */
  lemma {:induction false} InsertSplices<T>(q: seq<T>, t: T, key: T -> int)
    ensures var i := InsertionPoint(q, t, key);
      Insert(q, t, key) == q[..i] + [t] + q[i..]
  {
    if q == [] || key(t) < key(q[0]) {
      assert q[..0] == [] && q[0..] == q;
    } else {
      InsertSplices(q[1..], t, key);
      var i := InsertionPoint(q[1..], t, key);
      assert InsertionPoint(q, t, key) == i + 1;
      assert Insert(q, t, key) == [q[0]] + (q[1..][..i] + [t] + q[1..][i..]);
      assert q[..i + 1] == [q[0]] + q[1..][..i];
      assert q[i + 1..] == q[1..][i..];
    }
  }

  /** The insertion point is unique: any index satisfying the Java loop's exit
      conditions on a sorted queue is the one `Insert` uses. */
  lemma InsertionPointUnique<T>(q: seq<T>, t: T, key: T -> int, i: int, k: int)
    requires IsInsertionPoint(q, t, key, i)
    requires IsInsertionPoint(q, t, key, k)
    ensures i == k
  {
  }

  /** `offer` keeps the queue sorted. */
  lemma OfferKeepsSorted<T>(q: seq<T>, t: T, key: T -> int, i: nat)
    requires Sorted(q, key)
    requires IsInsertionPoint(q, t, key, i)
    ensures Sorted(q[..i] + [t] + q[i..], key)
  {
    var r := q[..i] + [t] + q[i..];
    forall a, b | 0 <= a < b < |r|
      ensures key(r[a]) <= key(r[b])
    {
      if b == i {
        assert r[a] == q[a];
      } else if a == i {
        assert r[b] == q[b - 1];
        assert key(t) < key(q[i]);
        if b - 1 > i {
          assert key(q[i]) <= key(q[b - 1]);
        }
      } else {
        var qa := if a < i then a else a - 1;
        var qb := if b < i then b else b - 1;
        assert r[a] == q[qa] && r[b] == q[qb];
      }
    }
  }

  /** FIFO tie-break: on a sorted queue, every timer that compares equal to
      `t` ends up before `t`, because the Java test is a strict `< 0`. */
  lemma OfferIsFifo<T>(q: seq<T>, t: T, key: T -> int, i: nat)
    requires Sorted(q, key)
    requires IsInsertionPoint(q, t, key, i)
    ensures forall j :: 0 <= j < |q| && key(q[j]) == key(t) ==> j < i
  {
  }

  /** The timers of `q` whose key is `k`, in queue order. */
  function WithKey<T>(q: seq<T>, key: T -> int, k: int): (r: seq<T>)
    ensures |r| <= |q|
  {
    if q == [] then []
    else (if key(q[0]) == k then [q[0]] else []) + WithKey(q[1..], key, k)
  }

  lemma {:induction false} WithKeyAppend<T>(a: seq<T>, b: seq<T>, key: T -> int, k: int)
    ensures WithKey(a + b, key, k) == WithKey(a, key, k) + WithKey(b, key, k)
  {
    if a == [] {
      assert a + b == b;
    } else {
      var ab := a + b;
      assert ab != [] && ab[0] == a[0];
      assert ab[1..] == a[1..] + b;
      WithKeyAppend(a[1..], b, key, k);
      assert WithKey(ab, key, k)
          == (if key(a[0]) == k then [a[0]] else []) + (WithKey(a[1..], key, k) + WithKey(b, key, k));
    }
  }

  lemma {:induction false} WithKeyNone<T>(q: seq<T>, key: T -> int, k: int)
    requires forall j :: 0 <= j < |q| ==> key(q[j]) != k
    ensures WithKey(q, key, k) == []
  {
    if q != [] {
      WithKeyNone(q[1..], key, k);
    }
  }

  /** Within every group of equal keys, `offer` appends `t` at the end of its
      own group and leaves the other groups untouched. */
  lemma OfferGroups<T>(q: seq<T>, t: T, key: T -> int, i: nat, k: int)
    requires Sorted(q, key)
    requires IsInsertionPoint(q, t, key, i)
    ensures WithKey(q[..i] + [t] + q[i..], key, k)
         == WithKey(q, key, k) + (if key(t) == k then [t] else [])
  {
    assert q == q[..i] + q[i..];
    WithKeyAppend(q[..i], q[i..], key, k);
    WithKeyAppend(q[..i] + [t], q[i..], key, k);
    WithKeyAppend(q[..i], [t], key, k);
    assert WithKey([t], key, k) == (if key(t) == k then [t] else []) by {
      assert [t][1..] == [];
    }
    if key(t) == k {
      forall j | 0 <= j < |q[i..]|
        ensures key(q[i..][j]) != k
      {
        assert key(t) < key(q[i]);
        if j > 0 {
          assert key(q[i]) <= key(q[i + j]);
        }
      }
      WithKeyNone(q[i..], key, k);
    }
  }

  /** Offering a sequence of timers one after another into a queue. */
  function OfferAll<T>(q: seq<T>, ts: seq<T>, key: T -> int): seq<T>
    decreases |ts|
  {
    if ts == [] then q else OfferAll(Insert(q, ts[0], key), ts[1..], key)
  }

  lemma InsertKeepsSorted<T>(q: seq<T>, t: T, key: T -> int)
    requires Sorted(q, key)
    ensures Sorted(Insert(q, t, key), key)
  {
    InsertSplices(q, t, key);
    OfferKeepsSorted(q, t, key, InsertionPoint(q, t, key));
  }

  lemma {:induction false} OfferAllKeepsSorted<T>(q: seq<T>, ts: seq<T>, key: T -> int)
    requires Sorted(q, key)
    ensures Sorted(OfferAll(q, ts, key), key)
    decreases |ts|
  {
    if ts != [] {
      InsertKeepsSorted(q, ts[0], key);
      OfferAllKeepsSorted(Insert(q, ts[0], key), ts[1..], key);
    }
  }

  /** The replay-determinism law: starting from a sorted queue, after any
      sequence of offers the timers sharing an expiry appear in exactly the
      order they were offered. */
  lemma {:induction false} OfferAllIsStable<T>(q: seq<T>, ts: seq<T>, key: T -> int, k: int)
    requires Sorted(q, key)
    ensures WithKey(OfferAll(q, ts, key), key, k) == WithKey(q, key, k) + WithKey(ts, key, k)
    decreases |ts|
  {
    if ts != [] {
      var t := ts[0];
      var q' := Insert(q, t, key);
      var g := if key(t) == k then [t] else [];
      var rest := WithKey(ts[1..], key, k);
      assert Sorted(q', key) && WithKey(q', key, k) == WithKey(q, key, k) + g by {
        InsertGroups(q, t, key, k);
        InsertKeepsSorted(q, t, key);
      }
      assert WithKey(OfferAll(q, ts, key), key, k) == WithKey(q', key, k) + rest by {
        OfferAllIsStable(q', ts[1..], key, k);
        assert OfferAll(q, ts, key) == OfferAll(q', ts[1..], key);
      }
      assert WithKey(ts, key, k) == g + rest;
      ConcatAssociates(WithKey(q, key, k), g, rest);
    }
  }

  lemma ConcatAssociates<T>(a: seq<T>, b: seq<T>, c: seq<T>)
    ensures (a + b) + c == a + (b + c)
  {
  }

  /** One offer appends the timer to the group of its expiry time. */
  lemma InsertGroups<T>(q: seq<T>, t: T, key: T -> int, k: int)
    requires Sorted(q, key)
    ensures WithKey(Insert(q, t, key), key, k) == WithKey(q, key, k) + (if key(t) == k then [t] else [])
  {
    InsertSplices(q, t, key);
    OfferGroups(q, t, key, InsertionPoint(q, t, key), k);
  }

  /** The end-to-end scenario: A at 100, then B at 100, then C at 50 gives
      the pop order C, A, B. */
  lemma OfferScenario(key: int -> int)
    requires key(1) == 100 && key(2) == 100 && key(3) == 50
    ensures OfferAll([], [1, 2, 3], key) == [3, 1, 2]
  {
    assert [1, 2, 3][1..] == [2, 3];
    assert [2, 3][1..] == [3];
    assert [1][1..] == [];
  }

  /** The position of the first node holding exactly timer `t`, if any. */
  function IndexOf<T(==)>(q: seq<T>, t: T): (r: Option<nat>)
    ensures r.None? <==> t !in q
    ensures r.Some? ==> r.value < |q| && q[r.value] == t
    ensures r.Some? ==> forall j :: 0 <= j < r.value ==> q[j] != t
  {
    if q == [] then None
    else if q[0] == t then Some(0)
    else match IndexOf(q[1..], t)
      case None => None
      case Some(i) => Some(i + 1)
  }

  /** `remove(t)`: unlinks the first node whose timer is `t`; a timer that is
      not queued leaves the queue as it was. */
  function Remove<T(==)>(q: seq<T>, t: T): (r: seq<T>)
    ensures t !in q ==> r == q
    ensures t in q ==> |r| == |q| - 1
  {
    match IndexOf(q, t)
    case None => q
    case Some(i) => q[..i] + q[i + 1..]
  }

  /** `IndexOf` finds the first occurrence and no other. */
  lemma {:induction false} IndexOfIsFirst<T>(q: seq<T>, t: T, i: nat)
    requires i < |q| && q[i] == t && (forall j :: 0 <= j < i ==> q[j] != t)
    ensures IndexOf(q, t) == Some(i)
  {
    if i > 0 {
      assert q[0] != t;
      assert q[1..][i - 1] == t;
      IndexOfIsFirst(q[1..], t, i - 1);
    }
  }

  /** `remove` unlinks exactly the first node holding `t` and keeps the order
      of every other node. */
  lemma RemoveUnlinksFirst<T>(q: seq<T>, t: T, i: nat)
    requires i < |q| && q[i] == t && (forall j :: 0 <= j < i ==> q[j] != t)
    ensures Remove(q, t) == q[..i] + q[i + 1..]
    ensures multiset(Remove(q, t)) == multiset(q) - multiset{t}
  {
    IndexOfIsFirst(q, t, i);
    assert multiset(q) == multiset(q[..i]) + multiset{t} + multiset(q[i + 1..]) by {
      assert q == q[..i] + [t] + q[i + 1..];
    }
  }

  /** Removing a node keeps the queue sorted. */
  lemma RemoveKeepsSorted<T>(q: seq<T>, t: T, key: T -> int)
    requires Sorted(q, key)
    ensures Sorted(Remove(q, t), key)
  {
    var r := Remove(q, t);
    if t in q {
      var i := IndexOf(q, t).value;
      forall a, b | 0 <= a < b < |r|
        ensures key(r[a]) <= key(r[b])
      {
        var qa := if a < i then a else a + 1;
        var qb := if b < i then b else b + 1;
        assert r[a] == q[qa] && r[b] == q[qb];
      }
    }
  }

  /** Cancelling a timer right after offering it restores the queue. */
  lemma RemoveUndoesOffer<T>(q: seq<T>, t: T, key: T -> int)
    requires t !in q
    ensures Remove(Insert(q, t, key), t) == q
  {
    InsertSplices(q, t, key);
    RemoveSpliced(q, t, InsertionPoint(q, t, key));
  }

  /** Removing a timer spliced into a queue that did not hold it gives the
      queue back. */
  lemma RemoveSpliced<T>(q: seq<T>, t: T, i: nat)
    requires t !in q && i <= |q|
    ensures Remove(q[..i] + [t] + q[i..], t) == q
  {
    var r := q[..i] + [t] + q[i..];
    forall j | 0 <= j < i
      ensures r[j] != t
    {
      assert r[j] == q[j];
    }
    assert Remove(r, t) == r[..i] + r[i + 1..] by {
      RemoveUnlinksFirst(r, t, i);
    }
    assert r[..i] == q[..i] && r[i + 1..] == q[i..] by {
      assert |r[..i]| == i && |r[i + 1..]| == |q| - i;
    }
    assert q == q[..i] + q[i..];
  }

  /** Which node `last` designates: a position in the list, or null. */
  function LastNode<T>(q: seq<T>): (r: Option<nat>)
    ensures r.Some? <==> q != []
    ensures r.Some? ==> r.value == |q| - 1
  {
    if q == [] then None else Some(|q| - 1)
  }

  /** After `offer`, the Java code sets `last` to the new node only when the
      walk ran off the end; otherwise it keeps the old last node, which has
      moved one place down. Either way `last` is the final node. */
  lemma OfferMaintainsLast<T>(q: seq<T>, t: T, key: T -> int, i: nat)
    requires IsInsertionPoint(q, t, key, i)
    ensures var r := q[..i] + [t] + q[i..];
      && (i == |q| ==> LastNode(r) == Some(i) && r[i] == t)
      && (i < |q| ==> LastNode(q).Some? && LastNode(r) == Some(LastNode(q).value + 1)
                      && r[LastNode(r).value] == q[LastNode(q).value])
  {
  }

  /** After `remove`, the Java code moves `last` back to the previous node
      exactly when the unlinked node was the last one; otherwise `last` is
      left alone and still denotes the final node. */
  lemma RemoveMaintainsLast<T>(q: seq<T>, t: T, i: nat)
    requires i < |q| && q[i] == t && (forall j :: 0 <= j < i ==> q[j] != t)
    ensures var r := Remove(q, t);
      && (i == |q| - 1 ==> LastNode(r) == (if i == 0 then None else Some(i - 1)))
      && (i < |q| - 1 ==> LastNode(r).Some? && r[LastNode(r).value] == q[LastNode(q).value])
  {
    RemoveUnlinksFirst(q, t, i);
  }

  /** One item of the save stream: a boolean or an object reference. */
  datatype Record<T> = Flag(b: bool) | Obj(timer: T)

  /** `dumpSRPartial`: `true` and the timer for every node, then `false`. */
  function Dump<T>(q: seq<T>): (r: seq<Record<T>>)
    ensures |r| == 2 * |q| + 1
    ensures r[|r| - 1] == Flag(false)
  {
    if q == [] then [Flag(false)] else [Flag(true), Obj(q[0])] + Dump(q[1..])
  }

  /** The dump holds `true` then the timer for node `i` at positions `2i` and
      `2i+1`. */
  lemma {:induction false} DumpLayout<T>(q: seq<T>, i: nat)
    requires i < |q|
    ensures Dump(q)[2 * i] == Flag(true) && Dump(q)[2 * i + 1] == Obj(q[i])
  {
    if i > 0 {
      DumpLayout(q[1..], i - 1);
      assert Dump(q) == [Flag(true), Obj(q[0])] + Dump(q[1..]);
    }
  }

  /** The loading constructor: read a boolean; while it is true, read a timer
      and append a node, then read the next boolean. A stream that ends early
      or holds the wrong kind of item is an I/O error. Returns the rebuilt
      list and the unread rest of the stream. */
  function Load<T>(s: seq<Record<T>>): (r: Result<(seq<T>, seq<Record<T>>)>)
    ensures r.Ok? ==> |r.value.1| < |s|
    decreases |s|
  {
    if s == [] || !s[0].Flag? then Throw(IOError("bad boolean"))
    else if !s[0].b then Ok(([], s[1..]))
    else if |s| < 2 || !s[1].Obj? then Throw(IOError("bad object"))
    else match Load(s[2..])
      case Throw(e) => Throw(e)
      case Ok((q, rest)) => Ok(([s[1].timer] + q, rest))
  }

  /** Save/load round trip: loading what was dumped rebuilds the same timers
      in the same order and consumes exactly the dump. */
  lemma {:induction false} LoadDump<T>(q: seq<T>, rest: seq<Record<T>>)
    ensures Load(Dump(q) + rest) == Ok((q, rest))
  {
    var s := Dump(q) + rest;
    if q == [] {
      assert s[0] == Flag(false);
      assert s[1..] == rest;
    } else {
      assert s == [Flag(true), Obj(q[0])] + (Dump(q[1..]) + rest);
      assert s[2..] == Dump(q[1..]) + rest;
      LoadDump(q[1..], rest);
      assert [q[0]] + q[1..] == q;
    }
  }

  /** Conversely, whatever the loader accepts was a dump of the list it built. */
  lemma {:induction false} LoadIsDump<T>(s: seq<Record<T>>)
    requires Load(s).Ok?
    ensures s == Dump(Load(s).value.0) + Load(s).value.1
    decreases |s|
  {
    if !s[0].b {
      assert s == [s[0]] + s[1..];
    } else {
      LoadIsDump(s[2..]);
      var q := Load(s[2..]).value.0;
      assert ([s[1].timer] + q)[1..] == q;
      assert s == [s[0], s[1]] + s[2..];
    }
  }
}
