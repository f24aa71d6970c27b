/** Field sums over finite sets, independent of the order of summation. */
module Sums {
  import opened Fp
  import Prime

  ghost function SumOver<T(!new)>(s: set<T>, f: T -> Elt): Elt {
    if s == {} then 0
    else
      var x :| x in s;
      Add(SumOver(s - {x}, f), f(x))
  }

  /** Any element may be taken out first. */
  lemma {:induction false} SumWithout<T(!new)>(s: set<T>, f: T -> Elt, y: T)
    requires y in s
    ensures SumOver(s, f) == Add(SumOver(s - {y}, f), f(y))
  {
    hide Add;
    var x :| x in s && SumOver(s, f) == Add(SumOver(s - {x}, f), f(x));
    if x != y {
      SumWithout(s - {x}, f, y);
      SumWithout(s - {y}, f, x);
      assert s - {x} - {y} == s - {y} - {x};
      Swap(SumOver(s - {x} - {y}, f), f(x), f(y));
    }
  }

  lemma Swap(a: Elt, x: Elt, y: Elt)
    ensures Add(Add(a, x), y) == Add(Add(a, y), x)
  {
    AddAssoc(a, x, y);
    AddAssoc(a, y, x);
  }

  lemma Regroup(a: Elt, b: Elt, c: Elt, d: Elt)
    ensures Add(Add(a, b), Add(c, d)) == Add(Add(a, c), Add(b, d))
  {
    hide *;
    Ring();
  }

  lemma SumInsert<T(!new)>(s: set<T>, f: T -> Elt, y: T)
    requires y !in s
    ensures SumOver(s + {y}, f) == Add(SumOver(s, f), f(y))
  {
    SumWithout(s + {y}, f, y);
    assert s + {y} - {y} == s;
  }

  /** Summing over an injective image is summing over the preimage, and the two have the same size. */
  lemma {:induction false} SumImage<A(!new), B(!new)>(s: set<A>, image: set<B>, g: A -> B, h: A -> Elt, f: B -> Elt)
    requires forall a, b :: a in s && b in s && g(a) == g(b) ==> a == b
    requires forall a :: a in s ==> h(a) == f(g(a))
    requires forall b :: b in image <==> exists a :: a in s && g(a) == b
    ensures SumOver(image, f) == SumOver(s, h) && |image| == |s|
  {
    hide Add;
    if s == {} {
      assert image == {};
    } else {
      var x :| x in s;
      var rest := image - {g(x)};
      forall b ensures b in rest <==> exists a :: a in s - {x} && g(a) == b {}
      SumImage(s - {x}, rest, g, h, f);
      assert g(x) in image && rest + {g(x)} == image;
      SumInsert(rest, f, g(x));
      SumWithout(s, h, x);
    }
  }

  lemma {:induction false} SumPairs<T(!new)>(s: set<T>, f: T -> Elt, g: T -> Elt, h: T -> Elt)
    requires forall x :: x in s ==> h(x) == Add(f(x), g(x))
    ensures SumOver(s, h) == Add(SumOver(s, f), SumOver(s, g))
  {
    hide Add;
    if s == {} {
      AddZero(0);
    } else {
      var x :| x in s;
      SumPairs(s - {x}, f, g, h);
      SumWithout(s, f, x);
      SumWithout(s, g, x);
      SumWithout(s, h, x);
      Regroup(SumOver(s - {x}, f), SumOver(s - {x}, g), f(x), g(x));
    }
  }

  /** How many elements f sends to one. */
  ghost function Ones<T(!new)>(s: set<T>, f: T -> Elt): nat { |set x | x in s && f(x) == 1| }

  /** A sum of zeros and ones counts the ones, as long as it cannot wrap. */
  lemma {:induction false} SumCounts<T(!new)>(s: set<T>, f: T -> Elt)
    requires |s| < P && forall x :: x in s ==> f(x) == 0 || f(x) == 1
    ensures SumOver(s, f) == Ones(s, f)
  {
    if s == {} {
      assert (set x | x in s && f(x) == 1) == {};
    } else {
      var x :| x in s;
      hide Ones, SumOver;
      SumCounts(s - {x}, f);
      SumWithout(s, f, x);
      OnesWithout(s, f, x);
    }
  }

  lemma OnesWithout<T(!new)>(s: set<T>, f: T -> Elt, x: T)
    requires x in s
    ensures Ones(s - {x}, f) < |s|
    ensures Ones(s, f) == Ones(s - {x}, f) + if f(x) == 1 then 1 else 0
  {
    var ones, rest := set y | y in s && f(y) == 1, set y | y in s - {x} && f(y) == 1;
    Prime.CardMono(rest, s - {x});
    if f(x) == 1 { assert ones == rest + {x}; } else { assert ones == rest; }
  }
}

/** The committed rows of a task and what they add up to. */
module Aggregates {
  import opened Messages
  import opened HelperJobs
  import opened Jobs
  import opened Store
  import opened Sums
  import Fp

  /** Row number index of the job stored under key. */
  datatype Entry = Entry(key: JobKey, index: nat)

  predicate Counts(row: Row) { row.finished && row.outShare != [] }

  ghost predicate IsEntry(s: State, t: TaskID, e: Entry) {
    && e.key in s.jobs && e.key.taskID == t
    && e.index < |s.jobs[e.key].rows| && Counts(s.jobs[e.key].rows[e.index])
  }

  /** The rows of task t that an aggregate share includes. */
  ghost function Entries(s: State, t: TaskID): (es: set<Entry>)
    ensures forall e :: e in es <==> IsEntry(s, t, e)
  {
    set k, i | k in s.jobs && 0 <= i < |s.jobs[k].rows| && IsEntry(s, t, Entry(k, i)) :: Entry(k, i)
  }

  ghost function ShareOf(s: State, e: Entry): seq<Elt> {
    if e.key in s.jobs && e.index < |s.jobs[e.key].rows| then s.jobs[e.key].rows[e.index].outShare else []
  }

  /** All committed output shares have the same length. */
  ghost predicate Uniform(s: State, t: TaskID) {
    forall d, e :: IsEntry(s, t, d) && IsEntry(s, t, e) ==> |ShareOf(s, d)| == |ShareOf(s, e)|
  }

  /** Every committed output share is a single field element. */
  ghost predicate UnitShares(s: State, t: TaskID) { forall e :: IsEntry(s, t, e) ==> |ShareOf(s, e)| == 1 }

  ghost function ElementOf(s: State, e: Entry, i: nat): Elt {
    if i < |ShareOf(s, e)| then ShareOf(s, e)[i] else 0
  }

  /** The field sum of the i-th elements of the given rows' output shares. */
  ghost function Column(s: State, es: set<Entry>, i: nat): Elt { SumOver(es, e => ElementOf(s, e, i)) }

  ghost function OutOf(s: State, e: Entry): Elt { ElementOf(s, e, 0) }

  ghost function Total(s: State, es: set<Entry>): Elt { Column(s, es, 0) }
}
