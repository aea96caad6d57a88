/** Failure-carrying values for the validation model, and the loops over them.

    The source signals three kinds of failure by raising: `int()` on a copy-number
    field that is not an integer, unpacking `x.split("_", 1)` (or the first two
    `_`-components) of a tag that has no `_`, and the `assert` on a caller with no
    call set. Each becomes a value of `Error`, so the model states exactly which
    inputs fail instead of forbidding them. */
module Results {

  datatype Option<+T> = None | Some(value: T) {
    /** The value, or the given failure where there is none. */
    function ToResult(error: Error): (r: Result<T>)
      ensures Some? ==> r == Ok(value)
      ensures None? ==> r == Err(error)
    {
      match this
      case Some(v) => Ok(v)
      case None => Err(error)
    }
  }

  datatype Error =
    | MalformedCopyNumber(tag: string)  // ValueError from int()
    | MissingUnderscore(tag: string)    // ValueError from a 2-tuple unpack
    | MissingCallSet(caller: string)    // AssertionError in the driver

  datatype Result<+T> = Ok(value: T) | Err(error: Error) {
    predicate IsFailure() {
      Err?
    }

    function PropagateFailure<U>(): Result<U>
      requires Err?
    {
      Err(error)
    }

    function Extract(): T
      requires Ok?
    {
      value
    }
  }

  /** `e` is the failure of the first element of `xs` on which `f` fails. */
  ghost predicate FirstError<A, B>(xs: seq<A>, f: A -> Result<B>, e: Error) {
    exists i :: 0 <= i < |xs| && f(xs[i]) == Err(e) && forall j :: 0 <= j < i ==> f(xs[j]).Ok?
  }

  /** Applies `f` to every element in order and stops at the first failure, as a
      Python list comprehension or loop does when `f` raises. */
  function MapResult<A, B>(xs: seq<A>, f: A -> Result<B>): (r: Result<seq<B>>)
    ensures r.Ok? <==> forall i :: 0 <= i < |xs| ==> f(xs[i]).Ok?
    ensures r.Ok? ==> |r.value| == |xs| && forall i :: 0 <= i < |xs| ==> f(xs[i]) == Ok(r.value[i])
    ensures r.Err? ==> exists i :: 0 <= i < |xs| && f(xs[i]) == Err(r.error)
                                   && forall j :: 0 <= j < i ==> f(xs[j]).Ok?
    decreases |xs|
  {
    if |xs| == 0 then Ok([])
    else
      match f(xs[0])
      case Err(e) => Err(e)
      case Ok(y) =>
        match MapResult(xs[1..], f)
        case Err(e) =>
          assert forall i :: 1 <= i < |xs| ==> xs[1..][i - 1] == xs[i];
          Err(e)
        case Ok(ys) => Ok([y] + ys)
  }

  /** The values of a successful map are exactly the images of the inputs. */
  lemma MapResultMembers<A, B>(xs: seq<A>, f: A -> Result<B>)
    requires MapResult(xs, f).Ok?
    ensures forall y :: y in MapResult(xs, f).value <==> exists x :: x in xs && f(x) == Ok(y)
  {
    var ys := MapResult(xs, f).value;
    forall y
      ensures y in ys <==> exists x :: x in xs && f(x) == Ok(y)
    {
      if y in ys {
        var i :| 0 <= i < |ys| && ys[i] == y;
        assert xs[i] in xs && f(xs[i]) == Ok(y);
      }
      if exists x :: x in xs && f(x) == Ok(y) {
        var x :| x in xs && f(x) == Ok(y);
        var i :| 0 <= i < |xs| && xs[i] == x;
        assert ys[i] == y;
      }
    }
  }

  /** A nested loop that writes a block of values per element: the blocks are
      concatenated in order, and the first failure stops everything. */
  function FlatMapResult<A, B>(xs: seq<A>, f: A -> Result<seq<B>>): (r: Result<seq<B>>)
    ensures r.Ok? <==> forall i :: 0 <= i < |xs| ==> f(xs[i]).Ok?
    ensures r.Err? ==> exists i :: 0 <= i < |xs| && f(xs[i]) == Err(r.error)
                                   && forall j :: 0 <= j < i ==> f(xs[j]).Ok?
    decreases |xs|
  {
    if |xs| == 0 then Ok([])
    else
      assert forall i :: 1 <= i < |xs| ==> xs[1..][i - 1] == xs[i];
      match f(xs[0])
      case Err(e) => Err(e)
      case Ok(ys) =>
        match FlatMapResult(xs[1..], f)
        case Err(e) => Err(e)
        case Ok(rest) => Ok(ys + rest)
  }

  /** A value is written exactly when it is in the block of some element. */
  lemma {:induction false} FlatMapMembers<A, B>(xs: seq<A>, f: A -> Result<seq<B>>)
    requires FlatMapResult(xs, f).Ok?
    ensures forall y :: y in FlatMapResult(xs, f).value <==>
                        exists i :: 0 <= i < |xs| && f(xs[i]).Ok? && y in f(xs[i]).value
    decreases |xs|
  {
    if |xs| > 0 {
      var tail := xs[1..];
      FlatMapMembers(tail, f);
      assert FlatMapResult(xs, f).value == f(xs[0]).value + FlatMapResult(tail, f).value;
      forall y
        ensures y in FlatMapResult(xs, f).value <==>
                exists i :: 0 <= i < |xs| && f(xs[i]).Ok? && y in f(xs[i]).value
      {
        if y in FlatMapResult(tail, f).value {
          var i :| 0 <= i < |tail| && f(tail[i]).Ok? && y in f(tail[i]).value;
          assert tail[i] == xs[i + 1];
        }
        if exists i :: 0 <= i < |xs| && f(xs[i]).Ok? && y in f(xs[i]).value {
          var i :| 0 <= i < |xs| && f(xs[i]).Ok? && y in f(xs[i]).value;
          if i > 0 {
            assert xs[i] == tail[i - 1];
          }
        }
      }
    }
  }

  /** The nested loop over a concatenation runs the first part, then the second. */
  lemma {:induction false} FlatMapAppend<A, B>(a: seq<A>, b: seq<A>, f: A -> Result<seq<B>>)
    ensures FlatMapResult(a + b, f).Ok? <==> FlatMapResult(a, f).Ok? && FlatMapResult(b, f).Ok?
    ensures FlatMapResult(a + b, f).Ok? ==>
              FlatMapResult(a + b, f).value == FlatMapResult(a, f).value + FlatMapResult(b, f).value
    decreases |a|
  {
    if |a| == 0 {
      assert a + b == b;
    } else {
      assert (a + b)[0] == a[0];
      assert (a + b)[1..] == a[1..] + b;
      FlatMapAppend(a[1..], b, f);
      if FlatMapResult(a + b, f).Ok? {
        var head := f(a[0]).value;
        assert FlatMapResult(a + b, f).value == head + FlatMapResult(a[1..] + b, f).value;
        assert FlatMapResult(a, f).value == head + FlatMapResult(a[1..], f).value;
      }
    }
  }

  /** The nested loop over one element is that element's block. */
  lemma FlatMapSingle<A, B>(x: A, f: A -> Result<seq<B>>)
    ensures FlatMapResult([x], f) == f(x)
  {
    assert [x][1..] == [];
    if f(x).Ok? {
      assert f(x).value + [] == f(x).value;
    }
  }

  /** One element's values are among the flattened values. */
  lemma FlatMapMember<A, B>(xs: seq<A>, f: A -> Result<seq<B>>, k: nat, y: B)
    requires FlatMapResult(xs, f).Ok?
    requires k < |xs| && f(xs[k]).Ok? && y in f(xs[k]).value
    ensures y in FlatMapResult(xs, f).value
  {
    FlatMapMembers(xs, f);
  }

  /** A property every block's values have, relative to the element that
      produced the block, holds of every value written. */
  lemma FlatMapAll<A, B>(xs: seq<A>, f: A -> Result<seq<B>>, p: (A, B) -> bool)
    requires FlatMapResult(xs, f).Ok?
    requires forall i, y :: 0 <= i < |xs| && f(xs[i]).Ok? && y in f(xs[i]).value ==> p(xs[i], y)
    ensures forall y :: y in FlatMapResult(xs, f).value ==> exists i :: 0 <= i < |xs| && p(xs[i], y)
  {
    FlatMapMembers(xs, f);
  }

  lemma MulStep(i: nat, n: nat)
    requires i > 0
    ensures i * n == n + (i - 1) * n
  {
  }

  /** The position of slot `j` of block `i` when every block has `n` slots. */
  function Slot(i: nat, j: nat, n: nat): nat {
    i * n + j
  }

  /** Slot `j` of block `i` lies inside `m` blocks of `n` slots. */
  lemma {:induction false} SlotBound(i: nat, j: nat, m: nat, n: nat)
    requires i < m && j < n
    ensures 0 <= i * n + j < m * n
    decreases m
  {
    MulStep(m, n);
    if i + 1 < m {
      SlotBound(i, j, m - 1, n);
    }
  }

  /** When every block has `n` values, the result has `n` values per element. */
  lemma {:induction false} FlatMapLength<A, B>(xs: seq<A>, f: A -> Result<seq<B>>, n: nat)
    requires FlatMapResult(xs, f).Ok?
    requires forall k :: 0 <= k < |xs| ==> f(xs[k]).Ok? && |f(xs[k]).value| == n
    ensures |FlatMapResult(xs, f).value| == |xs| * n
    decreases |xs|
  {
    if |xs| > 0 {
      var tail := xs[1..];
      assert forall k :: 0 <= k < |tail| ==> f(tail[k]).Ok? && |f(tail[k]).value| == n by {
        forall k | 0 <= k < |tail|
          ensures f(tail[k]).Ok? && |f(tail[k]).value| == n
        {
          assert tail[k] == xs[k + 1];
        }
      }
      FlatMapLength(tail, f, n);
      MulStep(|xs|, n);
    }
  }

  /** When every block has `n` values, value `j` of block `i` is at `i * n + j`. */
  lemma {:induction false} FlatMapIndex<A, B>(xs: seq<A>, f: A -> Result<seq<B>>, n: nat, i: nat, j: nat)
    requires FlatMapResult(xs, f).Ok?
    requires forall k :: 0 <= k < |xs| ==> f(xs[k]).Ok? && |f(xs[k]).value| == n
    requires i < |xs| && j < n
    ensures Slot(i, j, n) < |FlatMapResult(xs, f).value|
    ensures FlatMapResult(xs, f).value[Slot(i, j, n)] == f(xs[i]).value[j]
    decreases |xs|
  {
    var tail := xs[1..];
    var head := f(xs[0]).value;
    var rest := FlatMapResult(tail, f).value;
    assert FlatMapResult(xs, f).value == head + rest;
    assert forall k :: 0 <= k < |tail| ==> f(tail[k]).Ok? && |f(tail[k]).value| == n by {
      forall k | 0 <= k < |tail|
        ensures f(tail[k]).Ok? && |f(tail[k]).value| == n
      {
        assert tail[k] == xs[k + 1];
      }
    }
    if i > 0 {
      FlatMapIndex(tail, f, n, i - 1, j);
      MulStep(i, n);
      assert tail[i - 1] == xs[i];
      assert Slot(i, j, n) == n + Slot(i - 1, j, n);
      assert (head + rest)[n + Slot(i - 1, j, n)] == rest[Slot(i - 1, j, n)];
    }
  }

  /** The elements satisfying `p`, in order: a generator expression with an `if`. */
  function Filter<T(!new)>(xs: seq<T>, p: T -> bool): (r: seq<T>)
    ensures forall x :: x in r <==> x in xs && p(x)
    ensures |r| <= |xs|
    decreases |xs|
  {
    if |xs| == 0 then []
    else
      assert xs == [xs[0]] + xs[1..];
      var rest := Filter(xs[1..], p);
      if p(xs[0]) then [xs[0]] + rest else rest
  }

  /** A condition every element meets keeps them all. */
  lemma {:induction false} FilterAll<T(!new)>(xs: seq<T>, p: T -> bool)
    requires forall i :: 0 <= i < |xs| ==> p(xs[i])
    ensures Filter(xs, p) == xs
    decreases |xs|
  {
    if |xs| > 0 {
      FilterAll(xs[1..], p);
    }
  }

  /** Two conditions that agree on every element select the same elements. */
  lemma {:induction false} FilterCongruent<T(!new)>(xs: seq<T>, p: T -> bool, q: T -> bool)
    requires forall x :: x in xs ==> p(x) == q(x)
    ensures Filter(xs, p) == Filter(xs, q)
    decreases |xs|
  {
    if |xs| > 0 {
      assert forall x :: x in xs[1..] ==> x in xs;
      FilterCongruent(xs[1..], p, q);
    }
  }

  /** Filtering keeps order: it distributes over concatenation. */
  lemma {:induction false} FilterAppend<T(!new)>(a: seq<T>, b: seq<T>, p: T -> bool)
    ensures Filter(a + b, p) == Filter(a, p) + Filter(b, p)
    decreases |a|
  {
    if |a| == 0 {
      assert a + b == b;
    } else {
      assert (a + b)[0] == a[0];
      assert (a + b)[1..] == a[1..] + b;
      FilterAppend(a[1..], b, p);
    }
  }

  /** A loop that returns true at the first element whose test is true; a
      test that fails before that makes the whole loop fail. */
  function AnyResult<T>(xs: seq<T>, test: T -> Result<bool>): (r: Result<bool>)
    ensures r.Ok? ==> (r.value <==> exists i :: 0 <= i < |xs| && test(xs[i]) == Ok(true))
    ensures r.Err? <==> exists i :: && 0 <= i < |xs| && test(xs[i]).Err?
                                    && forall j :: 0 <= j < i ==> test(xs[j]) == Ok(false)
    ensures r.Err? ==> exists i :: && 0 <= i < |xs| && test(xs[i]) == Err(r.error)
                                   && forall j :: 0 <= j < i ==> test(xs[j]) == Ok(false)
    decreases |xs|
  {
    if |xs| == 0 then Ok(false)
    else
      assert forall i :: 1 <= i < |xs| ==> xs[1..][i - 1] == xs[i];
      match test(xs[0])
      case Err(e) => Err(e)
      case Ok(hit) =>
        if hit then Ok(true)
        else
          var rest := AnyResult(xs[1..], test);
          assert rest.Err? ==> exists i :: && 0 <= i < |xs| && test(xs[i]) == Err(rest.error)
                                           && forall j :: 0 <= j < i ==> test(xs[j]) == Ok(false) by {
            if rest.Err? {
              var k :| && 0 <= k < |xs[1..]| && test(xs[1..][k]) == Err(rest.error)
                       && forall j :: 0 <= j < k ==> test(xs[1..][j]) == Ok(false);
              assert xs[k + 1] == xs[1..][k];
              assert forall j :: 0 <= j < k + 1 ==> test(xs[j]) == Ok(false) by {
                forall j | 0 <= j < k + 1
                  ensures test(xs[j]) == Ok(false)
                {
                  if j > 0 {
                    assert xs[j] == xs[1..][j - 1];
                  }
                }
              }
            }
          }
          rest
  }

  /** The error of the first element passing `guard` whose `test` fails, if any. */
  function FirstFailure<T>(xs: seq<T>, guard: T -> bool, test: T -> Result<bool>): (r: Option<Error>)
    ensures r.None? <==> forall i :: 0 <= i < |xs| && guard(xs[i]) ==> test(xs[i]).Ok?
    ensures r.Some? ==> exists i :: && 0 <= i < |xs| && guard(xs[i]) && test(xs[i]) == Err(r.value)
                                    && forall j :: 0 <= j < i && guard(xs[j]) ==> test(xs[j]).Ok?
    decreases |xs|
  {
    if |xs| == 0 then None
    else if guard(xs[0]) && test(xs[0]).Err? then Some(test(xs[0]).error)
    else
      var rest := FirstFailure(xs[1..], guard, test);
      assert forall i :: 1 <= i < |xs| ==> xs[i] == xs[1..][i - 1];
      assert rest.Some? ==> exists i :: && 0 <= i < |xs| && guard(xs[i]) && test(xs[i]) == Err(rest.value)
                                        && forall j :: 0 <= j < i && guard(xs[j]) ==> test(xs[j]).Ok? by {
        if rest.Some? {
          var k :| && 0 <= k < |xs[1..]| && guard(xs[1..][k]) && test(xs[1..][k]) == Err(rest.value)
                   && forall j :: 0 <= j < k && guard(xs[1..][j]) ==> test(xs[1..][j]).Ok?;
          assert xs[k + 1] == xs[1..][k];
        }
      }
      rest
  }

  /** Filtering keeps each element with its multiplicity when it passes, and
      drops it otherwise. */
  lemma {:induction false} FilterMultiset<T(!new)>(xs: seq<T>, p: T -> bool)
    ensures forall x :: multiset(Filter(xs, p))[x] == if p(x) then multiset(xs)[x] else 0
    decreases |xs|
  {
    if |xs| > 0 {
      FilterMultiset(xs[1..], p);
      assert xs == [xs[0]] + xs[1..];
      assert multiset(xs) == multiset{xs[0]} + multiset(xs[1..]);
      if p(xs[0]) {
        var rest := Filter(xs[1..], p);
        assert multiset([xs[0]] + rest) == multiset{xs[0]} + multiset(rest);
      }
    }
  }

  /** `filter(guard).filter(test)` where `test` may fail: the elements passing
      both, in order; `test` runs only on elements passing `guard`, and the
      first failure makes the whole filter fail. */
  function FilterResult<T(!new)>(xs: seq<T>, guard: T -> bool, test: T -> Result<bool>): (r: Result<seq<T>>)
    ensures r.Ok? <==> forall i :: 0 <= i < |xs| && guard(xs[i]) ==> test(xs[i]).Ok?
    ensures r.Err? ==> exists i :: && 0 <= i < |xs| && guard(xs[i]) && test(xs[i]) == Err(r.error)
                                   && forall j :: 0 <= j < i && guard(xs[j]) ==> test(xs[j]).Ok?
    ensures r.Ok? ==> forall x :: multiset(r.value)[x] ==
                        if guard(x) && test(x) == Ok(true) then multiset(xs)[x] else 0
    ensures r.Ok? ==> (|r.value| == 0 <==>
                       forall i :: 0 <= i < |xs| ==> !(guard(xs[i]) && test(xs[i]) == Ok(true)))
  {
    match FirstFailure(xs, guard, test)
    case Some(e) => Err(e)
    case None =>
      var passes := x => guard(x) && test(x) == Ok(true);
      var kept := Filter(xs, passes);
      FilterMultiset(xs, passes);
      assert |kept| == 0 <==> forall i :: 0 <= i < |xs| ==> !passes(xs[i]) by {
        if |kept| > 0 {
          assert kept[0] in kept;
        }
        if exists i :: 0 <= i < |xs| && passes(xs[i]) {
          var i :| 0 <= i < |xs| && passes(xs[i]);
          assert xs[i] in xs;
        }
      }
      Ok(kept)
  }
}
