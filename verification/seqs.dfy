/** Order-preserving selection over sequences: the comprehension
    `[x for x in s if keep(x)]` used throughout both scripts. */
module Seqs {
  import opened Outcomes

  /** The elements of `s` that satisfy `keep`, in their original order. */
  function Filter<T(!new)>(s: seq<T>, keep: T -> bool): (r: seq<T>)
    ensures |r| <= |s|
    ensures forall i :: 0 <= i < |r| ==> keep(r[i])
    ensures forall x :: x in r <==> x in s && keep(x)
  {
    if |s| == 0 then []
    else
      var init := s[..|s| - 1];
      assert s == init + [s[|s| - 1]];
      Filter(init, keep) + (if keep(s[|s| - 1]) then [s[|s| - 1]] else [])
  }

  /** Filtering distributes over concatenation: each part is filtered on its
      own and the kept elements stay in order. */
  lemma {:induction false} FilterConcat<T(!new)>(a: seq<T>, b: seq<T>, keep: T -> bool)
    ensures Filter(a + b, keep) == Filter(a, keep) + Filter(b, keep)
    decreases |b|
  {
    if |b| == 0 {
      assert a + b == a;
    } else {
      var b' := b[..|b| - 1];
      var y := b[|b| - 1];
      assert (a + b)[..|a + b| - 1] == a + b';
      assert (a + b)[|a + b| - 1] == y;
      FilterConcat(a, b', keep);
    }
  }

  /** Filtering a sequence with one more element at its end. */
  lemma FilterSnoc<T(!new)>(s: seq<T>, y: T, keep: T -> bool)
    ensures Filter(s + [y], keep) == Filter(s, keep) + (if keep(y) then [y] else [])
  {
    assert (s + [y])[..|s|] == s;
  }

  /** Two selections may be applied in either order. */
  lemma {:induction false} FilterCommutes<T(!new)>(s: seq<T>, p: T -> bool, q: T -> bool)
    ensures Filter(Filter(s, p), q) == Filter(Filter(s, q), p)
    decreases |s|
  {
    if |s| > 0 {
      var init, y := s[..|s| - 1], s[|s| - 1];
      assert s == init + [y];
      FilterCommutes(init, p, q);
      FilterSnoc(init, y, p);
      FilterSnoc(init, y, q);
      if p(y) && q(y) {
        FilterSnoc(Filter(init, p), y, q);
        FilterSnoc(Filter(init, q), y, p);
      } else if p(y) {
        FilterSnoc(Filter(init, p), y, q);
        assert Filter(init, q) + [] == Filter(init, q);
      } else if q(y) {
        FilterSnoc(Filter(init, q), y, p);
        assert Filter(init, p) + [] == Filter(init, p);
      } else {
        assert Filter(init, p) + [] == Filter(init, p);
        assert Filter(init, q) + [] == Filter(init, q);
      }
    }
  }

  /** A filter keeps nothing exactly when no element satisfies the test. */
  lemma {:induction false} FilterEmpty<T(!new)>(s: seq<T>, keep: T -> bool)
    ensures Filter(s, keep) == [] <==> forall i :: 0 <= i < |s| ==> !keep(s[i])
    decreases |s|
  {
    if |s| > 0 {
      var init, y := s[..|s| - 1], s[|s| - 1];
      assert s == init + [y];
      FilterEmpty(init, keep);
      FilterSnoc(init, y, keep);
      assert (forall i :: 0 <= i < |s| ==> !keep(s[i])) <==>
             (forall i :: 0 <= i < |init| ==> !keep(init[i])) && !keep(y);
    }
  }

  /** A filter of a single element keeps it exactly when it satisfies `keep`. */
  lemma FilterSingleton<T(!new)>(x: T, keep: T -> bool)
    ensures Filter([x], keep) == if keep(x) then [x] else []
  {
    assert [x][..0] == [];
  }

  /** `[convert(x) for x in xs]` for a conversion that may fail: every
      element converted, or the index of the first one that could not be. */
  function ConvertAll<A, B>(xs: seq<A>, convert: A -> Option<B>): (r: Result<seq<B>, nat>)
    ensures r.Ok? <==> forall i :: 0 <= i < |xs| ==> convert(xs[i]).Some?
    ensures r.Ok? ==> |r.value| == |xs|
    ensures r.Ok? ==> forall i :: 0 <= i < |xs| ==> convert(xs[i]) == Some(r.value[i])
    ensures r.Err? ==> r.error < |xs| && convert(xs[r.error]).None?
    ensures r.Err? ==> forall j :: 0 <= j < r.error ==> convert(xs[j]).Some?
  {
    if |xs| == 0 then Ok([])
    else
      var rest := xs[1..];
      assert forall i :: 1 <= i < |xs| ==> xs[i] == rest[i - 1];
      match convert(xs[0])
      case None => Err(0)
      case Some(v) =>
        match ConvertAll(rest, convert)
        case Ok(vs) => Ok([v] + vs)
        case Err(k) => Err(k + 1)
  }

  /** `[f(x) for x in xs]`. */
  function Map<A, B>(xs: seq<A>, f: A -> B): (ys: seq<B>)
    ensures |ys| == |xs|
    ensures forall i :: 0 <= i < |xs| ==> ys[i] == f(xs[i])
  {
    seq(|xs|, i requires 0 <= i < |xs| => f(xs[i]))
  }

  lemma MapConcat<A, B>(a: seq<A>, b: seq<A>, f: A -> B)
    ensures Map(a + b, f) == Map(a, f) + Map(b, f)
  {
  }

  /** Filtering mapped values keeps as many elements as filtering the
      originals by the matching test. */
  lemma {:induction false} FilterMapCount<A(!new), B(!new)>(xs: seq<A>, f: A -> B, keep: B -> bool, pick: A -> bool)
    requires forall i :: 0 <= i < |xs| ==> keep(f(xs[i])) == pick(xs[i])
    ensures |Filter(Map(xs, f), keep)| == |Filter(xs, pick)|
    decreases |xs|
  {
    if |xs| > 0 {
      var init := xs[..|xs| - 1];
      assert Map(xs, f)[..|xs| - 1] == Map(init, f);
      FilterMapCount(init, f, keep, pick);
    }
  }
}
