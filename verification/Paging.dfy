/** The limit-plus-one contract shared by every listing. */
module Paging {
  import opened Prelude
  import opened Ordering

  /** Rows scanned in order until one fails; errors may also surface after the last row. */
  function Scanned<T, E>(rows: seq<Result<T, E>>, end: Option<E>): Result<seq<T>, E> {
    if rows == [] then (if end.Some? then Err(end.value) else Ok([]))
    else match rows[0]
      case Err(e) => Err(e)
      case Ok(v) => Prefixed([v], Scanned(rows[1..], end))
  }

  function Prefixed<T, E>(out: seq<T>, rest: Result<seq<T>, E>): Result<seq<T>, E> {
    match rest
    case Err(e) => Err(e)
    case Ok(vs) => Ok(out + vs)
  }

  lemma {:induction false} PrefixedStep<T, E>(out: seq<T>, v: T, rest: Result<seq<T>, E>)
    ensures Prefixed(out, Prefixed([v], rest)) == Prefixed(out + [v], rest)
    ensures Prefixed([], rest) == rest
  {
    if rest.Ok? {
      assert out + ([v] + rest.value) == out + [v] + rest.value;
      assert [] + rest.value == rest.value;
    }
  }

  /** Reads limit + 1 rows at most: the extra row only signals that there is more. */
  method ScanPage<T, E>(rows: seq<Result<T, E>>, end: Option<E>, limit: nat) returns (r: Result<(seq<T>, int), E>)
    ensures match Scanned(rows, end)
            case Err(e) => r == Err(e)
            case Ok(vs) => r == Ok((Take(limit, vs), if |vs| <= limit then 0 else 1))
  {
    var out: seq<T> := [];
    assert rows[0..] == rows;
    assert Prefixed(out, Scanned(rows, end)) == Scanned(rows, end) by {
      if Scanned(rows, end).Ok? { assert out + Scanned(rows, end).value == Scanned(rows, end).value; }
    }
    for i := 0 to |rows|
      invariant Scanned(rows, end) == Prefixed(out, Scanned(rows[i..], end))
    {
      assert rows[i..][1..] == rows[i + 1..];
      match rows[i] {
        case Err(e) =>
          return Err(e);
        case Ok(v) =>
          PrefixedStep(out, v, Scanned(rows[i + 1..], end));
          out := out + [v];
      }
    }
    assert out + [] == out;
    if end.Some? {
      return Err(end.value);
    }
    if |out| <= limit {
      return Ok((out, 0));
    }
    out := out[..limit];
    return Ok((out, 1));
  }

  lemma {:induction false} ScannedOk<T, E>(vs: seq<T>)
    ensures Scanned<T, E>(seq(|vs|, i requires 0 <= i < |vs| => Ok(vs[i])), None) == Ok(vs)
    decreases |vs|
  {
    var rows: seq<Result<T, E>> := seq(|vs|, i requires 0 <= i < |vs| => Ok(vs[i]));
    if vs != [] {
      ScannedOk<T, E>(vs[1..]);
      assert rows[1..] == seq(|vs[1..]|, i requires 0 <= i < |vs[1..]| => Ok(vs[1..][i]));
      assert vs == [vs[0]] + vs[1..];
    }
  }

  /** The k-th row is the first that fails. */
  predicate FailsFirst<T, E>(rows: seq<Result<T, E>>, k: nat) {
    k < |rows| && rows[k].Err? && forall i | 0 <= i < k :: rows[i].Ok?
  }

  /** Scanning ends in the error of the first row that fails, or in that of the result set if none does. */
  lemma {:induction false} ScannedIs<T, E>(rows: seq<Result<T, E>>, end: Option<E>)
    ensures forall k: nat | FailsFirst(rows, k) :: Scanned(rows, end) == Err(rows[k].error)
    ensures (forall i | 0 <= i < |rows| :: rows[i].Ok?) ==>
              match end
              case Some(e) => Scanned(rows, end) == Err(e)
              case None =>
                && Scanned(rows, end).Ok? && |Scanned(rows, end).value| == |rows|
                && forall i | 0 <= i < |rows| :: Scanned(rows, end).value[i] == rows[i].value
    decreases |rows|
  {
    if rows != [] {
      var rest := rows[1..];
      ScannedIs(rest, end);
      forall k: nat | FailsFirst(rows, k) && k > 0
        ensures Scanned(rows, end) == Err(rows[k].error)
      {
        assert rest[k - 1] == rows[k] && FailsFirst(rest, k - 1);
      }
      if forall i | 0 <= i < |rows| :: rows[i].Ok? {
        assert forall i | 0 <= i < |rest| :: rest[i] == rows[i + 1];
      }
    }
  }

  /** Requests needed when each page but the last holds step new rows after the first. */
  function Pages(n: nat, limit: nat, step: nat): nat
    requires 0 < step <= limit
    decreases n
  {
    if n <= limit then 1 else 1 + Pages(n - step, limit, step)
  }

  lemma {:induction false} PagesInClosedForm(n: nat, limit: nat)
    requires limit >= 1
    ensures Pages(n, limit, limit) == if n == 0 then 1 else (n + limit - 1) / limit
    decreases n
  {
    if n > limit {
      PagesInClosedForm(n - limit, limit);
      assert (n + limit - 1) / limit == (n - limit + limit - 1) / limit + 1 by {
        DivStep(n - 1, limit);
      }
    } else if n > 0 {
      DivOne(n - 1, limit);
    }
  }

  lemma {:induction false} DivStep(a: nat, d: nat)
    requires d > 0
    ensures (a + d) / d == a / d + 1
  {
    var q, r := a / d, a % d;
    assert a + d == d * (q + 1) + r;
    QuotientIs(a + d, d, q + 1, r);
  }

  lemma {:induction false} DivOne(a: nat, d: nat)
    requires a < d
    ensures (a + d) / d == 1
  {
    QuotientIs(a + d, d, 1, a);
  }

  lemma {:induction false} QuotientIs(a: nat, d: nat, q: nat, r: nat)
    requires d > 0 && r < d && a == d * q + r
    ensures a / d == q
  {
    var p := a / d;
    assert a == d * p + a % d;
    if p < q {
      assert d * (p + 1) <= d * q by { MulMono(d, p + 1, q); }
    } else if p > q {
      assert d * (q + 1) <= d * p by { MulMono(d, q + 1, p); }
    }
  }

  lemma {:induction false} MulMono(d: nat, a: nat, b: nat)
    requires a <= b
    ensures d * a <= d * b
  {}
}
