/** The fannkuch benchmark (benchmarks/rust/fannkuch.rs) for every n >= 1: the count-driven
    generator visits every permutation once, and the prefix-flip loop stops on each. */
module Fannkuch {
  import opened Sets

  // ----- permutations -----

  predicate IsPerm(p: seq<int>) {
    && (forall i | 0 <= i < |p| :: 0 <= p[i] < |p|)
    && (forall i, j | 0 <= i < j < |p| :: p[i] != p[j])
  }

  function Identity(n: nat): seq<int> {
    seq(n, i => i)
  }

  function Factorial(n: nat): nat {
    if n == 0 then 1 else n * Factorial(n - 1)
  }

  // ----- the flip loop -----

  function ReversePrefix(p: seq<int>, k: nat): seq<int>
    requires k < |p|
  {
    seq(|p|, i requires 0 <= i < |p| => if i <= k then p[k - i] else p[i])
  }

  function Reversed(s: seq<int>): seq<int> {
    if s == [] then [] else Reversed(s[1..]) + [s[0]]
  }

  /** The two laws that make it the reversal. */
  lemma {:induction false} ReversalLaws(a: seq<int>, b: seq<int>, x: int)
    ensures Reversed([x]) == [x] && Reversed([]) == []
    ensures Reversed(a + b) == Reversed(b) + Reversed(a)
    decreases |a|
  {
    assert [x][1..] == [] && [] + [x] == [x];
    if a == [] {
      assert a + b == b && Reversed(b) + [] == Reversed(b);
    } else {
      assert (a + b)[1..] == a[1..] + b;
      ReversalLaws(a[1..], b, x);
      assert Reversed(b) + Reversed(a[1..]) + [a[0]] == Reversed(b) + (Reversed(a[1..]) + [a[0]]);
    }
  }

  lemma {:induction false} ReversedAt(s: seq<int>, k: nat)
    requires k < |s|
    ensures |Reversed(s)| == |s| && Reversed(s)[k] == s[|s| - 1 - k]
    decreases |s|
  {
    if |s| > 1 {
      ReversedAt(s[1..], if k < |s| - 1 then k else 0);
    }
  }

  lemma FlipAt(a: seq<int>, b: seq<int>, i: nat)
    requires a != [] && i < |a + b|
    ensures |Reversed(a)| == |a| && ReversePrefix(a + b, |a| - 1)[i] == (Reversed(a) + b)[i]
  {
    ReversedAt(a, if i < |a| then i else 0);
    hide Reversed;
    if i < |a| {
      assert (a + b)[|a| - 1 - i] == a[|a| - 1 - i];
    }
  }

  /** A flip reverses the prefix and leaves the rest. */
  lemma FlipReverses(a: seq<int>, b: seq<int>)
    requires a != []
    ensures ReversePrefix(a + b, |a| - 1) == Reversed(a) + b
  {
    PrefixKeepsLength(a + b, |a| - 1);
    ReversedAt(a, 0);
    hide *;
    var x, y := ReversePrefix(a + b, |a| - 1), Reversed(a) + b;
    forall i | 0 <= i < |x|
      ensures x[i] == y[i]
    {
      FlipAt(a, b, i);
    }
    SameElements(x, y);
  }

  lemma SameElements(x: seq<int>, y: seq<int>)
    requires |x| == |y| && forall i | 0 <= i < |x| :: x[i] == y[i]
    ensures x == y
  {
  }

  lemma PrefixKeepsLength(p: seq<int>, k: nat)
    requires k < |p|
    ensures |ReversePrefix(p, k)| == |p|
  {
  }

  function Pow2(n: nat): nat {
    if n == 0 then 1 else 2 * Pow2(n - 1)
  }

  /** The sum of 2^j over positions 1 <= j < i that hold their own index. */
  function Settled(p: seq<int>, i: nat): nat
    requires i <= |p|
  {
    if i <= 1 then 0
    else Settled(p, i - 1) + (if p[i - 1] == i - 1 then Pow2(i - 1) else 0)
  }

  lemma {:induction false} SettledIsSmall(p: seq<int>, i: nat)
    requires 1 <= i <= |p|
    ensures Settled(p, i) < Pow2(i)
  {
    if i > 1 {
      SettledIsSmall(p, i - 1);
    }
  }

  lemma {:induction false} SettledBeyond(p: seq<int>, q: seq<int>, k: nat, i: nat)
    requires k < i <= |p| == |q|
    requires forall j | k < j < |p| :: p[j] == q[j]
    requires Settled(p, k + 1) < Settled(q, k + 1)
    ensures Settled(p, i) < Settled(q, i)
  {
    if i > k + 1 {
      SettledBeyond(p, q, k, i - 1);
    }
  }

  lemma ReverseIsPerm(p: seq<int>, k: nat)
    requires IsPerm(p) && k < |p|
    ensures IsPerm(ReversePrefix(p, k))
  {
    var q := ReversePrefix(p, k);
    forall i, j | 0 <= i < j < |q|
      ensures q[i] != q[j]
    {
      var i' := if i <= k then k - i else i;
      var j' := if j <= k then k - j else j;
      assert q[i] == p[i'] && q[j] == p[j'] && i' != j';
    }
  }

  /** One flip settles position p[0], which outweighs everything it can unsettle. */
  lemma FlipSettles(p: seq<int>)
    requires IsPerm(p) && |p| > 0 && p[0] != 0
    ensures IsPerm(ReversePrefix(p, p[0]))
    ensures Settled(p, |p|) < Settled(ReversePrefix(p, p[0]), |p|) < Pow2(|p|)
  {
    var k := p[0];
    var q := ReversePrefix(p, k);
    ReverseIsPerm(p, k);
    SettledIsSmall(q, |q|);
    SettledIsSmall(p, k);
    assert q[k] == k && p[k] != k;
    SettledBeyond(p, q, k, |p|);
  }

  /** How many flips it takes until the first element is 0. */
  function Flips(p: seq<int>): nat
    requires IsPerm(p) && |p| > 0
    decreases Pow2(|p|) - Settled(p, |p|)
  {
    if p[0] == 0 then 0
    else
      FlipSettles(p);
      1 + Flips(ReversePrefix(p, p[0]))
  }

  /** From `p` to `q` the prefix of length p[0] + 1 is reversed. */
  predicate IsFlip(p: seq<int>, q: seq<int>) {
    && p != [] && 0 < p[0] < |p|
    && q == Reversed(p[..p[0] + 1]) + p[p[0] + 1..]
  }

  /** Flips from `p` until 0 is in front. */
  predicate IsFlipChain(chain: seq<seq<int>>, p: seq<int>) {
    && chain != [] && chain[0] == p
    && (forall k | 0 <= k < |chain| - 1 :: IsFlip(chain[k], chain[k + 1]))
    && chain[|chain| - 1] != [] && chain[|chain| - 1][0] == 0
  }

  /** It takes `n` flips from `p` until 0 is in front. */
  ghost predicate TakesFlips(p: seq<int>, n: nat) {
    exists chain :: IsFlipChain(chain, p) && |chain| == n + 1
  }

  lemma FlipIsReversePrefix(p: seq<int>, q: seq<int>)
    requires IsPerm(p) && |p| > 0 && p[0] != 0
    ensures IsFlip(p, q) <==> q == ReversePrefix(p, p[0])
  {
    var a, b := p[..p[0] + 1], p[p[0] + 1..];
    assert p == a + b;
    FlipReverses(a, b);
  }

  lemma {:induction false} FlipsAreTaken(p: seq<int>)
    requires IsPerm(p) && |p| > 0
    ensures TakesFlips(p, Flips(p))
    decreases Flips(p)
  {
    if p[0] == 0 {
      assert IsFlipChain([p], p);
    } else {
      FlipSettles(p);
      var q := ReversePrefix(p, p[0]);
      FlipsAreTaken(q);
      FlipIsReversePrefix(p, q);
      var chain :| IsFlipChain(chain, q) && |chain| == Flips(q) + 1;
      var longer := [p] + chain;
      assert forall k | 0 < k < |longer| :: longer[k] == chain[k - 1];
      assert IsFlipChain(longer, p);
    }
  }

  lemma {:induction false} ChainsHaveOneLength(p: seq<int>, chain: seq<seq<int>>)
    requires IsPerm(p) && |p| > 0 && IsFlipChain(chain, p)
    ensures |chain| == Flips(p) + 1
    decreases |chain|
  {
    if |chain| > 1 {
      var rest := chain[1..];
      assert IsFlip(chain[0], chain[1]);
      FlipSettles(p);
      FlipIsReversePrefix(p, chain[1]);
      forall k | 0 <= k < |rest| - 1
        ensures IsFlip(rest[k], rest[k + 1])
      {
        assert IsFlip(chain[k + 1], chain[k + 1 + 1]);
      }
      ChainsHaveOneLength(chain[1], rest);
    }
  }

  /** The count is the length of the chain of flips, and there is no chain of another length. */
  lemma FlipsExactly(p: seq<int>, n: nat)
    requires IsPerm(p) && |p| > 0
    ensures TakesFlips(p, n) <==> n == Flips(p)
  {
    FlipsAreTaken(p);
    if TakesFlips(p, n) {
      var chain :| IsFlipChain(chain, p) && |chain| == n + 1;
      ChainsHaveOneLength(p, chain);
    }
  }

  method CountFlips(perm: array<int>) returns (flips: nat)
    requires perm.Length > 0 && IsPerm(perm[..])
    modifies perm
    ensures TakesFlips(old(perm[..]), flips) && flips == Flips(old(perm[..]))
    ensures IsPerm(perm[..]) && perm[0] == 0
  {
    hide TakesFlips, Settled, Pow2;
    FlipsAreTaken(perm[..]);
    flips := 0;
    var k := perm[0];
    while k != 0
      invariant IsPerm(perm[..]) && k == perm[0]
      invariant flips + Flips(perm[..]) == Flips(old(perm[..]))
      decreases Pow2(perm.Length) - Settled(perm[..], perm.Length)
    {
      ghost var p := perm[..];
      FlipSettles(p);
      forall i | 0 <= i <= k {
        perm[i] := perm[k - i];
      }
      assert perm[..] == ReversePrefix(p, k);
      flips := flips + 1;
      k := perm[0];
    }
  }

  // ----- the order of visits -----

  /** The first `m` elements rotated left by `i`. */
  function Rotated(p: seq<int>, m: nat, i: nat): seq<int>
    requires i <= m <= |p|
  {
    p[i..m] + p[..i] + p[m..]
  }

  /** The permutations of the first `m` elements of `p`, in the order they are visited. */
  function Visits(p: seq<int>, m: nat): seq<seq<int>>
    requires 1 <= m <= |p|
    decreases m, 0, 0
  {
    if m == 1 then [p] else Rounds(p, m, 0)
  }

  /** Rounds `i`, .., `m - 1` at a level: visit the shorter prefix, then rotate by one. */
  function Rounds(p: seq<int>, m: nat, i: nat): seq<seq<int>>
    requires 2 <= m <= |p| && i <= m
    decreases m - 1, 1, m - i
  {
    if i == m then [] else Visits(Rotated(p, m, i), m - 1) + Rounds(p, m, i + 1)
  }

  /** What is still to come when the first `r` elements have just been exhausted. */
  function Ahead(p: seq<int>, count: seq<int>, r: nat): seq<seq<int>>
    requires 1 <= r <= |p| == |count|
    requires forall j | r <= j < |count| :: count[j] >= 1
    decreases |p| - r, if r < |p| then count[r] else 0
  {
    if r == |p| then []
    else
      var next := Rotated(p, r + 1, 1);
      var c := count[r] - 1;
      if c > 0 then Visits(next, r) + Ahead(next, count[r := c], r)
      else Ahead(next, count[r := c], r + 1)
  }

  lemma RotateOnce(p: seq<int>, m: nat, i: nat)
    requires i < m <= |p|
    ensures Rotated(Rotated(p, m, i), m, 1) == Rotated(p, m, i + 1)
  {
    var q := Rotated(p, m, i);
    assert q[m..] == p[m..];
    assert q[..1] == [p[i]];
    assert q[1..m] == p[i + 1..m] + p[..i];
    assert p[..i + 1] == p[..i] + [p[i]];
  }

  lemma {:induction false} AheadIgnoresBelow(p: seq<int>, a: seq<int>, b: seq<int>, r: nat)
    requires 1 <= r <= |p| == |a| == |b|
    requires forall j | r <= j < |p| :: a[j] == b[j] && a[j] >= 1
    ensures Ahead(p, a, r) == Ahead(p, b, r)
    decreases |p| - r, if r < |p| then a[r] else 0
  {
    if r < |p| {
      var next, c := Rotated(p, r + 1, 1), a[r] - 1;
      if c > 0 {
        AheadIgnoresBelow(next, a[r := c], b[r := c], r);
      } else {
        AheadIgnoresBelow(next, a[r := c], b[r := c], r + 1);
      }
    }
  }

  /** In round `i` of a level, the remaining rounds lie ahead, and then the prefix is as it was. */
  lemma {:induction false} AheadInRound(p: seq<int>, count: seq<int>, m: nat, i: nat)
    requires 2 <= m <= |p| == |count| && i < m
    requires count[m - 1] == m - i && forall j | m <= j < |count| :: count[j] >= 1
    ensures Ahead(Rotated(p, m, i), count, m - 1) == Rounds(p, m, i + 1) + Ahead(p, count, m)
    decreases m - i
  {
    RotateOnce(p, m, i);
    var next, c := Rotated(p, m, i + 1), m - i - 1;
    var count' := count[m - 1 := c];
    if c > 0 {
      AheadInRound(p, count', m, i + 1);
      AheadIgnoresBelow(p, count', count, m);
      assert Rounds(p, m, i + 1) == Visits(next, m - 1) + Rounds(p, m, i + 2);
    } else {
      assert next == p;
      AheadIgnoresBelow(p, count', count, m);
    }
  }

  /** Setting `count[r - 1] = r` on the way down changes nothing about what is to come. */
  lemma DescendKeepsPlan(p: seq<int>, count: seq<int>, r: nat)
    requires 2 <= r <= |p| == |count| && forall j | r <= j < |count| :: count[j] >= 1
    ensures Visits(p, r) + Ahead(p, count, r) == Visits(p, r - 1) + Ahead(p, count[r - 1 := r], r - 1)
  {
    var count' := count[r - 1 := r];
    assert Rotated(p, r, 0) == p;
    AheadInRound(p, count', r, 0);
    AheadIgnoresBelow(p, count, count', r);
    assert Visits(p, r) == Visits(p, r - 1) + Rounds(p, r, 1);
  }

  // ----- the program -----

  ghost predicate Perms(vs: seq<seq<int>>) {
    forall k | 0 <= k < |vs| :: |vs[k]| > 0 && IsPerm(vs[k])
  }

  function MaxFlips(vs: seq<seq<int>>): nat
    requires Perms(vs)
  {
    if vs == [] then 0
    else
      var init, last := MaxFlips(vs[..|vs| - 1]), Flips(vs[|vs| - 1]);
      if last > init then last else init
  }

  /** Flips with alternating signs. */
  function Checksum(vs: seq<seq<int>>): int
    requires Perms(vs)
  {
    if vs == [] then 0
    else
      var flips: int := Flips(vs[|vs| - 1]);
      Checksum(vs[..|vs| - 1]) + if (|vs| - 1) % 2 == 0 then flips else -flips
  }

  function Alternating(k: nat, flips: int): int {
    if k % 2 == 0 then flips else -flips
  }

  lemma SignsCompose(i: nat, j: nat, flips: int)
    ensures Alternating(i + j, flips) == Alternating(i, Alternating(j, flips))
  {
  }

  lemma ChecksumOfMore(vs: seq<seq<int>>, p: seq<int>)
    requires Perms(vs) && |p| > 0 && IsPerm(p)
    ensures Perms(vs + [p]) && Checksum(vs + [p]) == Checksum(vs) + Alternating(|vs|, Flips(p))
  {
    assert (vs + [p])[..|vs|] == vs;
  }

  lemma PermsOfBoth(a: seq<seq<int>>, b: seq<seq<int>>)
    requires Perms(a) && Perms(b)
    ensures Perms(a + b)
  {
  }

  lemma LastPerm(b: seq<seq<int>>)
    requires Perms(b) && b != []
    ensures Perms(b[..|b| - 1]) && |b[|b| - 1]| > 0 && IsPerm(b[|b| - 1])
  {
  }

  /** The sign alternates from visit to visit, starting with plus. */
  lemma {:induction false} ChecksumAlternates(a: seq<seq<int>>, b: seq<seq<int>>)
    requires Perms(a) && Perms(b) && Perms(a + b)
    ensures Checksum(a + b) == Checksum(a) + Alternating(|a|, Checksum(b))
    decreases |b|
  {
    hide *;
    NoChecksum(|a|);
    if b == [] {
      assert a + b == a;
    } else {
      var init, last := b[..|b| - 1], b[|b| - 1];
      LastPerm(b);
      PermsOfBoth(a, init);
      ChecksumAlternates(a, init);
      ChecksumOfMore(init, last);
      ChecksumOfMore(a + init, last);
      assert a + b == a + init + [last] && b == init + [last];
      SignsCompose(|a|, |init|, Flips(last));
      SignOfSum(|a|, Checksum(init), Alternating(|init|, Flips(last)));
    }
  }

  lemma SignOfSum(k: nat, x: int, y: int)
    ensures Alternating(k, x + y) == Alternating(k, x) + Alternating(k, y)
  {
  }

  lemma ChecksumOfOne(p: seq<int>)
    requires |p| > 0 && IsPerm(p)
    ensures Perms([p]) && Checksum([p]) == Flips(p)
  {
    NoChecksum(0);
    ChecksumOfMore([], p);
    assert [] + [p] == [p];
    hide Checksum, Flips, IsPerm;
  }

  lemma NoChecksum(k: nat)
    ensures Perms([]) && Checksum([]) == 0 && Alternating(k, 0) == 0
  {
  }

  method RotateInPlace(perm1: array<int>, r: nat)
    requires r < perm1.Length
    modifies perm1
    ensures perm1[..] == Rotated(old(perm1[..]), r + 1, 1)
  {
    var perm0 := perm1[0];
    for i := 0 to r
      invariant forall k | 0 <= k < i :: perm1[k] == old(perm1[k + 1])
      invariant forall k | i <= k < perm1.Length :: perm1[k] == old(perm1[k])
    {
      perm1[i] := perm1[i + 1];
    }
    perm1[r] := perm0;
  }

  // ----- every permutation, exactly once -----

  lemma SplitLast(q: seq<int>, m: nat)
    requires 1 <= m <= |q|
    ensures multiset(q[..m]) == multiset(q[..m - 1]) + multiset{q[m - 1]}
  {
    assert q[..m] == q[..m - 1] + [q[m - 1]];
  }

  lemma RotatedSamePrefix(p: seq<int>, m: nat, k: nat)
    requires 1 <= m <= |p| && k < m
    ensures |Rotated(p, m, k)| == |p| && Rotated(p, m, k)[m..] == p[m..]
    ensures multiset(Rotated(p, m, k)[..m]) == multiset(p[..m])
    ensures Rotated(p, m, k)[m - 1] == if k == 0 then p[m - 1] else p[k - 1]
  {
    var q := Rotated(p, m, k);
    assert q[..m] == p[k..m] + p[..k];
    assert p[..m] == p[..k] + p[k..m];
  }

  lemma {:induction false} RoundsExactly(p: seq<int>, m: nat, i: nat, q: seq<int>)
    requires 2 <= m <= |p| && i <= m
    ensures q in Rounds(p, m, i) <==> exists k | i <= k < m :: q in Visits(Rotated(p, m, k), m - 1)
    decreases m - i
  {
    if i < m {
      RoundsExactly(p, m, i + 1, q);
    }
  }

  lemma VisitedAtTheBottom(p: seq<int>, q: seq<int>)
    requires 1 <= |p|
    ensures q in Visits(p, 1) <==> |q| == |p| && q[1..] == p[1..] && multiset(q[..1]) == multiset(p[..1])
  {
    if |q| == |p| && q[1..] == p[1..] && multiset(q[..1]) == multiset(p[..1]) {
      assert q[..1] == [q[0]] && p[..1] == [p[0]];
      assert q[0] in multiset(p[..1]);
      assert q == [q[0]] + q[1..] && p == [p[0]] + p[1..];
    }
  }

  lemma VisitsAreRounds(p: seq<int>, m: nat)
    requires 2 <= m <= |p|
    ensures Visits(p, m) == Rounds(p, m, 0)
  {
    hide Rounds;
  }

  /** Exactly the rearrangements of the prefix are visited. */
  lemma {:induction false} VisitedExactly(p: seq<int>, m: nat, q: seq<int>)
    requires 1 <= m <= |p|
    ensures q in Visits(p, m) <==> |q| == |p| && q[m..] == p[m..] && multiset(q[..m]) == multiset(p[..m])
    decreases m
  {
    if m == 1 {
      VisitedAtTheBottom(p, q);
    } else {
      hide Visits, Rotated;
      RoundsExactly(p, m, 0, q);
      VisitsAreRounds(p, m);
      if |q| == |p| && q[m..] == p[m..] && multiset(q[..m]) == multiset(p[..m]) {
        assert q[m - 1] in q[..m];
        assert q[m - 1] in multiset(p[..m]);
        var j :| 0 <= j < m && p[j] == q[m - 1];
        var k := if j == m - 1 then 0 else j + 1;
        InRound(p, m, k, q);
      }
      forall k | 0 <= k < m && q in Visits(Rotated(p, m, k), m - 1)
        ensures |q| == |p| && q[m..] == p[m..] && multiset(q[..m]) == multiset(p[..m])
      {
        FromRound(p, m, k, q);
      }
    }
  }

  /** Dropping a common last element. */
  lemma ShorterPrefix(q: seq<int>, r: seq<int>, m: nat)
    requires 1 <= m <= |q| == |r| && q[m..] == r[m..] && q[m - 1] == r[m - 1]
    requires multiset(q[..m]) == multiset(r[..m])
    ensures multiset(q[..m - 1]) == multiset(r[..m - 1]) && q[m - 1..] == r[m - 1..]
  {
    SplitLast(q, m);
    SplitLast(r, m);
    assert multiset(q[..m - 1]) == multiset(q[..m]) - multiset{q[m - 1]};
    assert multiset(r[..m - 1]) == multiset(r[..m]) - multiset{r[m - 1]};
    assert q[m - 1..] == [q[m - 1]] + q[m..] && r[m - 1..] == [r[m - 1]] + r[m..];
  }

  lemma InRound(p: seq<int>, m: nat, k: nat, q: seq<int>)
    requires 2 <= m <= |p| == |q| && k < m
    requires q[m..] == p[m..] && multiset(q[..m]) == multiset(p[..m]) && q[m - 1] == Rotated(p, m, k)[m - 1]
    ensures q in Visits(Rotated(p, m, k), m - 1)
    decreases m, 0
  {
    var r := Rotated(p, m, k);
    RotatedSamePrefix(p, m, k);
    ShorterPrefix(q, r, m);
    VisitedExactly(r, m - 1, q);
  }

  lemma FromRound(p: seq<int>, m: nat, k: nat, q: seq<int>)
    requires 2 <= m <= |p| && k < m && q in Visits(Rotated(p, m, k), m - 1)
    ensures |q| == |p| && q[m..] == p[m..] && multiset(q[..m]) == multiset(p[..m])
            && q[m - 1] == Rotated(p, m, k)[m - 1]
    decreases m, 0
  {
    var r := Rotated(p, m, k);
    RotatedSamePrefix(p, m, k);
    VisitedExactly(r, m - 1, q);
    SplitLast(q, m);
    SplitLast(r, m);
    assert q[m - 1] == q[m - 1..][0] && r[m - 1] == r[m - 1..][0];
    assert q[m..] == q[m - 1..][1..] && r[m..] == r[m - 1..][1..];
  }

  predicate AllDifferent<T(==)>(vs: seq<T>) {
    forall i, j | 0 <= i < j < |vs| :: vs[i] != vs[j]
  }

  lemma DifferentConcat<T>(a: seq<T>, b: seq<T>)
    requires AllDifferent(a) && AllDifferent(b) && forall x | x in a :: x !in b
    ensures AllDifferent(a + b)
  {
    var c := a + b;
    forall i, j | 0 <= i < j < |c|
      ensures c[i] != c[j]
    {
      if i < |a| <= j {
        assert c[i] in a && c[j] in b;
      }
    }
  }

  lemma RotatedStaysDifferent(p: seq<int>, m: nat, k: nat)
    requires 1 <= m <= |p| && k < m && AllDifferent(p)
    ensures AllDifferent(Rotated(p, m, k))
  {
    var q := Rotated(p, m, k);
    forall i, j | 0 <= i < j < |q|
      ensures q[i] != q[j]
    {
      var i' := if i < m - k then i + k else if i < m then i - (m - k) else i;
      var j' := if j < m - k then j + k else if j < m then j - (m - k) else j;
      assert q[i] == p[i'] && q[j] == p[j'] && i' != j';
    }
  }

  /** A permutation belongs to one round only: rounds put different elements last. */
  lemma RoundsDoNotMeet(p: seq<int>, m: nat, i: nat, q: seq<int>)
    requires 2 <= m <= |p| && i < m && AllDifferent(p) && q in Visits(Rotated(p, m, i), m - 1)
    ensures q !in Rounds(p, m, i + 1)
  {
    RoundsExactly(p, m, i + 1, q);
    FromRound(p, m, i, q);
    RotatedSamePrefix(p, m, i);
    forall k | i + 1 <= k < m
      ensures q !in Visits(Rotated(p, m, k), m - 1)
    {
      RotatedSamePrefix(p, m, k);
      if q in Visits(Rotated(p, m, k), m - 1) {
        FromRound(p, m, k, q);
      }
    }
  }

  lemma {:induction false} RoundsAreDifferent(p: seq<int>, m: nat, i: nat)
    requires 2 <= m <= |p| && i <= m && AllDifferent(p)
    ensures AllDifferent(Rounds(p, m, i)) && |Rounds(p, m, i)| == (m - i) * Factorial(m - 1)
    decreases m - 1, 1, m - i
  {
    if i < m {
      var r := Rotated(p, m, i);
      var here, later := Visits(r, m - 1), Rounds(p, m, i + 1);
      RotatedStaysDifferent(p, m, i);
      VisitsAreDifferent(r, m - 1);
      RoundsAreDifferent(p, m, i + 1);
      forall q | q in here
        ensures q !in later
      {
        RoundsDoNotMeet(p, m, i, q);
      }
      DifferentConcat(here, later);
      OneLess(m - i, Factorial(m - 1));
      assert Rounds(p, m, i) == here + later;
    }
  }

  lemma {:induction false} VisitsAreDifferent(p: seq<int>, m: nat)
    requires 1 <= m <= |p| && AllDifferent(p)
    ensures AllDifferent(Visits(p, m)) && |Visits(p, m)| == Factorial(m)
    decreases m, 0, 0
  {
    if m == 1 {
      assert Factorial(1) == 1 * Factorial(0);
    } else {
      RoundsAreDifferent(p, m, 0);
    }
  }

  lemma OneLess(c: int, f: int)
    ensures c * f == (c - 1) * f + f
  {
  }

  // ----- permutations of 0..n as multisets -----

  lemma {:induction false} CountOnce(q: seq<int>, x: int)
    requires AllDifferent(q)
    ensures multiset(q)[x] == if x in q then 1 else 0
  {
    if q != [] {
      var init, last := q[..|q| - 1], q[|q| - 1];
      assert q == init + [last];
      CountOnce(init, x);
      assert last !in init;
    }
  }

  lemma {:induction false} ElementCount(q: seq<int>)
    requires AllDifferent(q)
    ensures |set x | x in q| == |q|
  {
    if q != [] {
      var init, last := q[..|q| - 1], q[|q| - 1];
      assert q == init + [last];
      ElementCount(init);
      assert last !in init;
      assert (set x | x in q) == (set x | x in init) + {last};
    }
  }

  lemma MultisetPerm(q: seq<int>, n: nat)
    ensures |q| == n && IsPerm(q) <==> multiset(q) == multiset(Identity(n))
  {
    var id := Identity(n);
    if |q| == n && IsPerm(q) {
      ElementCount(q);
      ElementCount(id);
      var a, b := set x | x in q, set x | x in id;
      forall x | x in a
        ensures x in b
      {
        assert id[x] == x;
      }
      SubsetSize(a, b);
      forall x
        ensures multiset(q)[x] == multiset(id)[x]
      {
        CountOnce(q, x);
        CountOnce(id, x);
        assert x in q <==> x in a;
        assert x in id <==> x in b;
      }
    }
    if multiset(q) == multiset(id) {
      assert |q| == |multiset(q)| == |multiset(id)| == n;
      forall i | 0 <= i < |q|
        ensures 0 <= q[i] < |q|
      {
        assert q[i] in multiset(id);
      }
      forall i, j | 0 <= i < j < |q|
        ensures q[i] != q[j]
      {
        CountOnce(id, q[i]);
        TwiceInMultiset(q, i, j);
      }
    }
  }

  lemma TwiceInMultiset(q: seq<int>, i: nat, j: nat)
    requires i < j < |q|
    ensures q[i] == q[j] ==> multiset(q)[q[i]] >= 2
  {
    assert q == q[..i] + [q[i]] + q[i + 1..j] + [q[j]] + q[j + 1..];
    assert multiset(q) == multiset(q[..i]) + multiset{q[i]} + multiset(q[i + 1..j]) + multiset{q[j]}
           + multiset(q[j + 1..]);
  }

  /** The generator's plan for n: all permutations of 0..n, each once, n! of them. */
  lemma VisitsEveryPermutationOnce(n: nat)
    requires n >= 1
    ensures forall q :: q in Visits(Identity(n), n) <==> |q| == n && IsPerm(q)
    ensures AllDifferent(Visits(Identity(n), n))
    ensures |Visits(Identity(n), n)| == Factorial(n)
  {
    var id := Identity(n);
    VisitsAreDifferent(id, n);
    forall q
      ensures q in Visits(id, n) <==> |q| == n && IsPerm(q)
    {
      VisitedExactly(id, n, q);
      MultisetPerm(q, n);
      assert id[..n] == id;
      if |q| == n {
        assert q[..n] == q && q[n..] == id[n..];
      }
    }
  }

  lemma VisitsArePerms(n: nat)
    requires n >= 1
    ensures Perms(Visits(Identity(n), n)) && |Visits(Identity(n), n)| == Factorial(n)
  {
    VisitsEveryPermutationOnce(n);
    var vs := Visits(Identity(n), n);
    forall k | 0 <= k < |vs|
      ensures |vs[k]| > 0 && IsPerm(vs[k])
    {
      assert vs[k] in vs;
    }
  }

  /** The remaining count is the mixed-radix number of the counters. */
  function MixedRadix(count: seq<int>, r: nat): int
    requires r <= |count|
    decreases |count| - r
  {
    if r == |count| then 0 else (count[r] - 1) * Factorial(r) + MixedRadix(count, r + 1)
  }

  lemma {:induction false} MixedRadixIgnoresBelow(a: seq<int>, b: seq<int>, r: nat)
    requires r <= |a| == |b| && forall j | r <= j < |a| :: a[j] == b[j]
    ensures MixedRadix(a, r) == MixedRadix(b, r)
    decreases |a| - r
  {
    if r < |a| {
      MixedRadixIgnoresBelow(a, b, r + 1);
    }
  }

  /** Each visit takes one from it: with the visits of the current level they make the plan. */
  lemma {:induction false} AheadIsMixedRadix(p: seq<int>, count: seq<int>, r: nat)
    requires 1 <= r <= |p| == |count| && AllDifferent(p)
    requires forall j | r <= j < |count| :: count[j] >= 1
    ensures |Ahead(p, count, r)| == MixedRadix(count, r)
    decreases |p| - r, if r < |p| then count[r] else 0
  {
    if r < |p| {
      var next, c := Rotated(p, r + 1, 1), count[r] - 1;
      var count' := count[r := c];
      RotatedStaysDifferent(p, r + 1, 1);
      MixedRadixIgnoresBelow(count, count', r + 1);
      if c > 0 {
        VisitsAreDifferent(next, r);
        AheadIsMixedRadix(next, count', r);
        OneLess(c, Factorial(r));
      } else {
        AheadIsMixedRadix(next, count', r + 1);
      }
    }
  }

  // ----- the main loop -----

  ghost predicate CountersFrom(count: seq<int>, r: nat) {
    forall j | r <= j < |count| :: count[j] >= 1
  }

  /** Visited so far, visits of the current prefix, and what lies ahead make up the plan. */
  ghost predicate OnPlan(plan: seq<seq<int>>, done: seq<seq<int>>, p: seq<int>, count: seq<int>, r: nat) {
    1 <= r <= |p| == |count| && CountersFrom(count, r) && plan == done + (Visits(p, r) + Ahead(p, count, r))
  }

  ghost predicate AfterVisit(plan: seq<seq<int>>, done: seq<seq<int>>, p: seq<int>, count: seq<int>, r: nat) {
    1 <= r <= |p| == |count| && CountersFrom(count, r) && plan == done + Ahead(p, count, r)
  }

  /** The inner `while r != 1`. */
  method ResetCounters(count: array<int>, r0: nat, ghost p: seq<int>, ghost plan: seq<seq<int>>,
                       ghost done: seq<seq<int>>) returns (r: nat)
    requires OnPlan(plan, done, p, count[..], r0)
    modifies count
    ensures r == 1 && OnPlan(plan, done, p, count[..], r)
  {
    r := r0;
    while r != 1
      invariant OnPlan(plan, done, p, count[..], r)
    {
      DescendKeepsPlan(p, count[..], r);
      ghost var before := count[..];
      count[r - 1] := r;
      assert count[..] == before[r - 1 := r];
      r := r - 1;
    }
  }

  /** The inner `loop`: rotate ever longer prefixes until a counter is not used up. */
  method NextPermutation(perm1: array<int>, count: array<int>, r0: nat, ghost plan: seq<seq<int>>,
                         ghost done: seq<seq<int>>)
      returns (r: nat, finished: bool)
    requires perm1.Length == count.Length && perm1 != count
    requires AfterVisit(plan, done, perm1[..], count[..], r0)
    modifies perm1, count
    ensures finished ==> plan == done
    ensures !finished ==> OnPlan(plan, done, perm1[..], count[..], r)
  {
    r := r0;
    while true
      invariant AfterVisit(plan, done, perm1[..], count[..], r)
      decreases perm1.Length - r
    {
      if r == perm1.Length {
        return r, true;
      }
      ghost var p, c := perm1[..], count[..];
      RotateInPlace(perm1, r);
      count[r] := count[r] - 1;
      assert count[..] == c[r := c[r] - 1];
      if count[r] > 0 {
        return r, false;
      }
      r := r + 1;
    }
  }

  /** At the bottom level the visit is the current permutation. */
  lemma TakeVisit(plan: seq<seq<int>>, done: seq<seq<int>>, p: seq<int>, count: seq<int>)
    requires OnPlan(plan, done, p, count, 1)
    ensures |done| < |plan| && plan[|done|] == p
    ensures AfterVisit(plan, done + [p], p, count, 1)
  {
    var ahead := Ahead(p, count, 1);
    assert Visits(p, 1) == [p];
    assert plan == done + ([p] + ahead);
    assert done + ([p] + ahead) == (done + [p]) + ahead;
  }

  /** The running results are those of the visits so far. */
  ghost predicate Recorded(done: seq<seq<int>>, permCount: nat, checksum: int, maxFlips: nat) {
    Perms(done) && permCount == |done| && checksum == Checksum(done) && maxFlips == MaxFlips(done)
  }

  /** Copies the current permutation, flips the copy and updates the results. */
  method Visit(perm1: array<int>, perm: array<int>, permCount: nat, checksum0: int, maxFlips0: nat,
               ghost done: seq<seq<int>>)
      returns (checksum: int, maxFlips: nat)
    requires perm1 != perm && perm1.Length == perm.Length > 0 && IsPerm(perm1[..])
    requires Recorded(done, permCount, checksum0, maxFlips0)
    modifies perm
    ensures Recorded(done + [perm1[..]], permCount + 1, checksum, maxFlips)
  {
    forall i | 0 <= i < perm.Length {
      perm[i] := perm1[i];
    }
    assert perm[..] == perm1[..];
    var flips := CountFlips(perm);
    maxFlips := if flips > maxFlips0 then flips else maxFlips0;
    checksum := checksum0 + if permCount % 2 == 0 then flips as int else -flips;
    assert (done + [perm1[..]])[..|done|] == done;
  }

  /** Runs to the printed result: the checksum over the visits in order, and the largest flip
      count. `rounds` is the number of times the main loop visits. */
  method Run(n: nat) returns (checksum: int, maxFlips: nat, rounds: nat)
    requires n >= 1
    ensures Recorded(Visits(Identity(n), n), rounds, checksum, maxFlips)
    ensures rounds == Factorial(n)
  {
    var perm1, count, perm := new int[n](i => i), new int[n](_ => 0), new int[n](_ => 0);
    maxFlips, checksum := 0, 0;
    var permCount, r := 0, n;
    ghost var plan := Visits(Identity(n), n);
    ghost var done: seq<seq<int>> := [];
    VisitsArePerms(n);
    assert perm1[..] == Identity(n);
    assert done + (plan + []) == plan;
    while true
      invariant perm1.Length == count.Length == perm.Length == n
      invariant OnPlan(plan, done, perm1[..], count[..], r)
      invariant Recorded(done, permCount, checksum, maxFlips)
      decreases |plan| - |done|
    {
      r := ResetCounters(count, r, perm1[..], plan, done);
      ghost var p := perm1[..];
      TakeVisit(plan, done, p, count[..]);
      assert IsPerm(p);
      checksum, maxFlips := Visit(perm1, perm, permCount, checksum, maxFlips, done);
      done := done + [p];
      var finished;
      r, finished := NextPermutation(perm1, count, r, plan, done);
      if finished {
        rounds := permCount + 1;
        return;
      }
      permCount := permCount + 1;
    }
  }

  /** So what it prints as the maximum is attained, and exceeded by no permutation. */
  lemma {:induction false} MaxFlipsIsMaximum(vs: seq<seq<int>>)
    requires Perms(vs)
    ensures forall k | 0 <= k < |vs| :: Flips(vs[k]) <= MaxFlips(vs)
    ensures vs != [] ==> exists k | 0 <= k < |vs| :: Flips(vs[k]) == MaxFlips(vs)
  {
    if vs != [] {
      var init := vs[..|vs| - 1];
      MaxFlipsIsMaximum(init);
      assert forall k | 0 <= k < |init| :: vs[k] == init[k];
      if init != [] {
        var k :| 0 <= k < |init| && Flips(init[k]) == MaxFlips(init);
        assert Flips(vs[k]) == MaxFlips(init);
      }
      assert Flips(vs[|vs| - 1]) <= MaxFlips(vs);
    }
  }

  /** The maximum over all permutations of 0..n of the number of flips each takes. */
  lemma PfannkuchenNumber(n: nat)
    requires n >= 1
    ensures Perms(Visits(Identity(n), n))
    ensures forall q: seq<int>, f: nat | |q| == n && IsPerm(q) && TakesFlips(q, f) ::
              f <= MaxFlips(Visits(Identity(n), n))
    ensures exists q: seq<int> | |q| == n && IsPerm(q) :: TakesFlips(q, MaxFlips(Visits(Identity(n), n)))
  {
    VisitsArePerms(n);
    VisitsEveryPermutationOnce(n);
    var vs := Visits(Identity(n), n);
    MaxFlipsIsMaximum(vs);
    hide Visits, Flips, IsPerm, TakesFlips, MaxFlips;
    forall q: seq<int>, f: nat | |q| == n && IsPerm(q) && TakesFlips(q, f)
      ensures f <= MaxFlips(vs)
    {
      FlipsExactly(q, f);
      assert q in vs;
      var k :| 0 <= k < |vs| && vs[k] == q;
    }
    assert Identity(n) in vs;
    var k :| 0 <= k < |vs| && Flips(vs[k]) == MaxFlips(vs);
    assert vs[k] in vs;
    FlipsExactly(vs[k], MaxFlips(vs));
  }

  // ----- the rotation -----

  /** A rotation takes the first elements of the prefix to its end. */
  lemma RotationLaw(a: seq<int>, b: seq<int>, c: seq<int>)
    ensures Rotated(a + b + c, |a| + |b|, |a|) == b + a + c
  {
    var p := a + b + c;
    assert p[|a|..|a| + |b|] == b && p[..|a|] == a && p[|a| + |b|..] == c;
  }
}
