// Division facts the other modules share.
module Arith {

  function One(b: bool): nat { if b then 1 else 0 }

  lemma MulAtLeast(k: int, N: nat)
    requires k >= 1
    ensures k * N >= N
  {
    assert k * N == (k - 1) * N + N;
    assert (k - 1) * N >= 0;
  }

  lemma DivModUnique(x: int, q: int, r: nat, N: nat)
    requires N > 0 && r < N && x == q * N + r
    ensures x / N == q && x % N == r
  {
    var q', r' := x / N, x % N;
    assert q' * N + r' == q * N + r;
    if q' < q {
      assert (q - q') * N == q * N - q' * N;
      MulAtLeast(q - q', N);
    } else if q' > q {
      assert (q' - q) * N == q' * N - q * N;
      MulAtLeast(q' - q, N);
    }
  }

  lemma AddMultiple(a: int, k: int, N: nat)
    requires N > 0
    ensures (a + k * N) % N == a % N
    ensures (a + k * N) / N == a / N + k
  {
    assert a + k * N == (a / N + k) * N + a % N by {
      assert (a / N + k) * N == (a / N) * N + k * N;
    }
    DivModUnique(a + k * N, a / N + k, a % N, N);
  }

  lemma ModOfSum(a: int, b: int, N: nat)
    requires N > 0
    ensures (a + b) % N == (a + b % N) % N
  {
    assert a + b == (a + b % N) + (b / N) * N;
    AddMultiple(a + b % N, b / N, N);
  }

  lemma MultipleIsPositive(n: nat, N: nat)
    requires N > 0 && n > 0 && n % N == 0
    ensures n / N > 0 && n >= N
  {
    if n < N {
      DivModUnique(n, 0, n, N);
    } else {
      DivModUnique(n, n / N, 0, N);
      assert n == (n / N) * N;
      if n / N == 0 {
        assert false;
      }
    }
  }
}
