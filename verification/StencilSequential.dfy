/** The sequential reference of the stencil examples, on two arrays that are swapped after every
    iteration, and the comparison of a result with it. */
module StencilSequential {
  import opened StencilGrid

  /** Every stored cell of the array shows iterate t. */
  ghost predicate ShowsAll(g: Grid, a: seq<real>, t: nat)
    requires g.Valid() && |a| == |g.init|
  {
    forall x, y | g.InGrid(x, y) :: a[g.Index(x, y)] == g.Ref(t, x, y)
  }

  ghost predicate BorderFixed(g: Grid, a: seq<real>)
    requires g.Valid() && |a| == |g.init|
  {
    forall x, y | g.InGrid(x, y) && !g.Interior(x, y) :: a[g.Index(x, y)] == g.init[g.Index(x, y)]
  }

  /** One sweep over the interior has got to (x, y). */
  ghost predicate SweptTo(g: Grid, a: seq<real>, t: nat, x: int, y: int)
    requires g.Valid() && |a| == |g.init|
  {
    forall x', y' | g.Interior(x', y') && (y' < y || (y' == y && x' < x)) ::
      a[g.Index(x', y')] == g.Ref(t + 1, x', y')
  }

  lemma WriteSwept(g: Grid, a: seq<real>, t: nat, x: int, y: int, v: real)
    requires g.Valid() && |a| == |g.init| && g.Interior(x, y)
    requires SweptTo(g, a, t, x, y) && BorderFixed(g, a) && v == g.Ref(t + 1, x, y)
    ensures SweptTo(g, a[g.Index(x, y) := v], t, x + 1, y)
    ensures BorderFixed(g, a[g.Index(x, y) := v])
  {
    forall x', y' | g.InGrid(x', y') && g.Index(x', y') == g.Index(x, y)
      ensures x' == x && y' == y
    {
      IndexInjective(g, x', y', x, y);
    }
  }

  lemma PointOfIterate(g: Grid, a: seq<real>, t: nat, x: int, y: int)
    requires g.Valid() && |a| == |g.init| && g.Interior(x, y) && ShowsAll(g, a, t)
    ensures g.Point(a, x, y) == g.Ref(t + 1, x, y)
  {
  }

  /** The loop of validate_values that computes the answer. */
  method Answer(g: Grid) returns (ansOld: array<real>)
    requires g.Valid()
    ensures fresh(ansOld) && ansOld.Length == |g.init|
    ensures ShowsAll(g, ansOld[..], g.iters)
  {
    ansOld := new real[|g.init|](i requires 0 <= i < |g.init| => g.init[i]);
    var ansNew := new real[|g.init|](i requires 0 <= i < |g.init| => g.init[i]);
    assert ansOld[..] == g.init && ansNew[..] == g.init;
    for t := 0 to g.iters
      invariant fresh(ansOld) && fresh(ansNew) && ansOld != ansNew
      invariant ansOld.Length == |g.init| && ansNew.Length == |g.init|
      invariant ShowsAll(g, ansOld[..], t)
      invariant BorderFixed(g, ansNew[..])
    {
      Sweep(g, ansOld, ansNew, t);
      ansOld, ansNew := ansNew, ansOld;
    }
  }

  method Sweep(g: Grid, ansOld: array<real>, ansNew: array<real>, t: nat)
    requires g.Valid() && ansOld != ansNew && ansOld.Length == |g.init| && ansNew.Length == |g.init|
    requires ShowsAll(g, ansOld[..], t) && BorderFixed(g, ansNew[..])
    modifies ansNew
    ensures ShowsAll(g, ansNew[..], t + 1) && BorderFixed(g, ansOld[..])
  {
    for y := 0 to g.H()
      invariant BorderFixed(g, ansNew[..])
      invariant SweptTo(g, ansNew[..], t, 0, y)
    {
      for x := 0 to g.W()
        invariant BorderFixed(g, ansNew[..])
        invariant SweptTo(g, ansNew[..], t, x, y)
      {
        var v := g.f(ansOld[g.Index(x, y)], ansOld[g.Index(x + 1, y)], ansOld[g.Index(x - 1, y)],
                     ansOld[g.Index(x, y + 1)], ansOld[g.Index(x, y - 1)]);
        assert v == g.Point(ansOld[..], x, y);
        PointOfIterate(g, ansOld[..], t, x, y);
        WriteSwept(g, ansNew[..], t, x, y, v);
        ghost var before := ansNew[..];
        ansNew[g.Index(x, y)] := v;
        assert ansNew[..] == before[g.Index(x, y) := v];
      }
    }
  }

  const ERROR_THRESHOLD: real := 0.000001

  predicate Close(a: real, b: real) {
    -ERROR_THRESHOLD <= a - b <= ERROR_THRESHOLD
  }

  /** The threshold is a millionth. */
  lemma CloseMeans(a: real, b: real)
    ensures Close(a, b) <==> -1.0 <= (a - b) * 1000000.0 <= 1.0
  {
  }

  /** validate_values: 0 when every interior value is within the threshold of the sequential answer.
      It stops counting after ten failures. */
  method ValidateValues(g: Grid, values: seq<real>) returns (code: int)
    requires g.Valid() && |values| == |g.init|
    ensures code == 0 || code == -1
    ensures code == 0 <==>
            forall x, y | g.Interior(x, y) :: Close(values[g.Index(x, y)], g.Ref(g.iters, x, y))
  {
    var ansOld := Answer(g);
    var failures: nat := 0;
    for y := 0 to g.H()
      invariant failures == 0 <==>
                forall x', y' | g.Interior(x', y') && y' < y :: Close(values[g.Index(x', y')], g.Ref(g.iters, x', y'))
    {
      for x := 0 to g.W()
        invariant failures == 0 <==>
                  forall x', y' | g.Interior(x', y') && (y' < y || (y' == y && x' < x)) ::
                    Close(values[g.Index(x', y')], g.Ref(g.iters, x', y'))
      {
        var diff := values[g.Index(x, y)] - ansOld[g.Index(x, y)];
        assert ansOld[..][g.Index(x, y)] == g.Ref(g.iters, x, y);
        if diff > ERROR_THRESHOLD || diff < -ERROR_THRESHOLD {
          assert !Close(values[g.Index(x, y)], g.Ref(g.iters, x, y));
          failures := failures + 1;
          if failures >= 10 {
            return -1;
          }
        }
      }
    }
    return if failures == 0 then 0 else -1;
  }
}
