/** rand.c: the generator MT19937, which makes 624 words at a time in place, and the
    sampling of a range from its output. Words are 32 bits wide. */
module Mt19937 {
  import opened Options
  import Sets
  import opened Words32

  const N: nat := 624
  const M: nat := 397

  /** 69069 times the word before. */
  function Lcg(w: bv32): bv32 {
    69069 * w
  }

  type Words = nat -> bv32

  ghost predicate Recurs(x: Words, i: nat) {
    x(i + N) == Twist(x(i), x(i + 1), x(i + M))
  }

  ghost predicate Starts(x: Words, seed: bv32, i: nat) {
    x(i) == if i == 0 then seed else Lcg(x(i - 1))
  }

  /** The sequence of the generator: 624 words from the seed, the rest by the recurrence. */
  ghost predicate Sequence(x: Words, seed: bv32) {
    (forall i: nat :: i < N ==> Starts(x, seed, i)) && forall i: nat :: Recurs(x, i)
  }

  function X(first: seq<bv32>, i: nat): bv32
    requires |first| == N
  {
    if i < N then first[i] else Twist(X(first, i - N), X(first, i - N + 1), X(first, i - N + M))
  }

  /** The sequence is determined by the seed. */
  lemma {:induction false} SequenceUnique(x: Words, y: Words, seed: bv32, i: nat)
    requires Sequence(x, seed) && Sequence(y, seed)
    ensures x(i) == y(i)
  {
    if i >= N {
      assert Recurs(x, i - N) && Recurs(y, i - N);
      SequenceUnique(x, y, seed, i - N);
      SequenceUnique(x, y, seed, i - N + 1);
      SequenceUnique(x, y, seed, i - N + M);
    } else {
      assert Starts(x, seed, i) && Starts(y, seed, i);
      if i > 0 { SequenceUnique(x, y, seed, i - 1); }
    }
  }

  /** And there is one for every 624 words. */
  lemma Exists(first: seq<bv32>, seed: bv32, x: Words)
    requires |first| == N && first[0] == seed && (forall k :: 1 <= k < N ==> first[k] == Lcg(first[k - 1]))
    requires forall i: nat :: x(i) == X(first, i)
    ensures Sequence(x, seed)
  {
    forall i: nat ensures Recurs(x, i) { assert x(i + N) == X(first, i + N); }
  }

  // ------------------------------------------------- no two states meet

  lemma Before(x: Words, y: Words, i: nat)
    requires Recurs(x, i) && Recurs(y, i) && x(i + M) == y(i + M) && x(i + N) == y(i + N)
    ensures Joined(x(i), x(i + 1)) == Joined(y(i), y(i + 1))
  {
    TwistBack(x(i), x(i + 1), y(i), y(i + 1), x(i + M));
  }

  /** No two states of the generator come to be the same: 624 words in a row determine all
      words before them but the first. */
  lemma {:induction false} Backward(x: Words, y: Words, i: nat, j: nat)
    requires (forall k: nat :: Recurs(x, k)) && (forall k: nat :: Recurs(y, k)) && forall k: nat :: j <= k < j + N ==> x(k) == y(k)
    requires 1 <= i < j + N
    ensures x(i) == y(i)
    decreases j + N - i
  {
    if i < j {
      Backward(x, y, i + M - 1, j);
      Backward(x, y, i + M, j);
      Backward(x, y, i + N - 1, j);
      Backward(x, y, i + N, j);
      Before(x, y, i - 1);
      Before(x, y, i);
      JoinedParts(x(i - 1), x(i), x(i + 1), y(i - 1), y(i), y(i + 1));
    }
  }

  /** The first kk words of the array are those of the sequence from next on, the others
      still those from base on. */
  ghost predicate Half(mt: seq<bv32>, x: Words, base: nat, next: nat, kk: nat)
    requires |mt| == N
  {
    forall k: nat :: k < N ==> mt[k] == if k < kk then x(next + k) else x(base + k)
  }

  class Mt {
    const mt: array<bv32>
    var mti: nat
    ghost var x: Words
    ghost var seed: bv32
    ghost var base: nat          // which word of the sequence mt[0] is

    ghost predicate Valid()
      reads this, mt
    {
      && mt.Length == N && mti <= N + 1
      && (mti <= N ==> Sequence(x, seed) && Half(mt[..], x, base, base, 0) && base + mti >= N)
    }

    /** The number of words handed out so far. */
    ghost function Drawn(): int
      reads this
    {
      if mti == N + 1 then 0 else base + mti - N
    }

    constructor ()
      ensures Valid() && mti == N + 1 && fresh(mt)
    {
      mt := new bv32[N](_ => 0);
      mti, x, seed, base := N + 1, _ => 0, 0, 0;
    }

    /** sgenrand. */
    method Sgenrand(s: bv32)
      requires Valid()
      modifies this, mt
      ensures Valid() && mti == N && Drawn() == 0 && seed == s
    {
      mt[0] := s;
      mti := 1;
      while mti < N
        invariant 1 <= mti <= N && mt[0] == s && forall k :: 1 <= k < mti ==> mt[k] == Lcg(mt[k - 1])
      {
        mt[mti] := Lcg(mt[mti - 1]);
        mti := mti + 1;
      }
      ghost var first := mt[..];
      x, seed, base := (i: nat) => X(first, i), s, 0;
      Exists(first, s, x);
    }

    /** One word made anew, from the words at kk, n and far. */
    method Make(kk: nat, n: nat, far: nat, ghost next: nat)
      requires mt.Length == N && kk < N && Sequence(x, seed) && next == base + N && Half(mt[..], x, base, next, kk)
      requires n == (if kk + 1 < N then kk + 1 else 0) && far == if kk + M < N then kk + M else kk + M - N
      modifies mt
      ensures Half(mt[..], x, base, next, kk + 1)
    {
      ghost var at := base + kk;
      assert Recurs(x, at);
      assert mt[..][kk] == x(at) && mt[..][n] == x(at + 1) && mt[..][far] == x(at + M);
      mt[kk] := Twist(mt[kk], mt[n], mt[far]);
    }

    /** The loops of genrand, in place: words that were overwritten already are read where
        the recurrence wants the new ones. */
    method Regenerate()
      requires Valid() && mti == N
      modifies this`mti, this`base, mt
      ensures Valid() && mti == 0 && base == old(base) + N
    {
      ghost var next := base + N;
      var kk := 0;
      while kk < N - M
        invariant 0 <= kk <= N - M && base == old(base) && Half(mt[..], x, base, next, kk)
      {
        Make(kk, kk + 1, kk + M, next);
        kk := kk + 1;
      }
      while kk < N - 1
        invariant N - M <= kk <= N - 1 && base == old(base) && Half(mt[..], x, base, next, kk)
      {
        Make(kk, kk + 1, kk - (N - M), next);
        kk := kk + 1;
      }
      Make(N - 1, 0, M - 1, next);
      mti, base := 0, next;
    }

    /** genrand: the next word of the sequence, tempered, without its top bit. */
    method Genrand() returns (r: bv32)
      requires Valid()
      modifies this, mt
      ensures Valid() && mti <= N && (if old(mti) == N + 1 then seed == 4357 else seed == old(seed) && x == old(x))
      ensures Sequence(x, seed) && Drawn() == old(Drawn()) + 1 && old(Drawn()) >= 0
      ensures r == Output(x(N + old(Drawn())))
    {
      Refill();
      assert mt[..][mti] == x(base + mti);
      r := Output(mt[mti]);
      mti := mti + 1;
    }

    /** New words if the old ones are used up, with the default seed if there was none. */
    method Refill()
      requires Valid()
      modifies this, mt
      ensures Valid() && mti < N && (if old(mti) == N + 1 then seed == 4357 else seed == old(seed) && x == old(x))
      ensures Drawn() == old(Drawn())
    {
      if mti >= N {
        if mti == N + 1 { Sgenrand(4357); }
        Regenerate();
      }
    }

    /** random_at_most, giving up after so many draws: the first output that is not in the
        defect decides. */
    method RandomAtMost(max: nat, tries: nat) returns (r: Option<nat>)
      requires Valid() && max < RAND_NUM
      modifies this, mt
      ensures Valid() && old(Drawn()) >= 0 && 0 <= Drawn() - old(Drawn()) <= tries
      ensures Rejected(x, max, old(Drawn()), if r.Some? then Drawn() - 1 else Drawn())
      ensures r.Some? ==> r.value <= max && Drawn() > old(Drawn()) && Choice(x, max, Drawn() - 1) == r
      ensures r == None ==> Drawn() == old(Drawn()) + tries
    {
      var i := 0;
      while i < tries
        invariant 0 <= i <= tries && Valid() && Drawn() == old(Drawn()) + i >= i
        invariant Rejected(x, max, old(Drawn()), Drawn()) && (i > 0 ==> mti <= N)
      {
        var raw := Genrand();
        r := Sample(max, raw as nat);
        if r.Some? {
          InBin(max, r.value, raw as nat, BinSize(max));
          return;
        }
        i := i + 1;
      }
      r := None;
    }
  }

  /** What the n-th output gives. */
  ghost function Choice(x: Words, max: nat, n: int): Option<nat>
    requires max < RAND_NUM
  {
    if n < 0 then None else Sample(max, Output(x(N + n)) as nat)
  }

  /** The outputs from number a up to b give nothing. */
  ghost predicate Rejected(x: Words, max: nat, a: int, b: int)
    requires max < RAND_NUM
  {
    forall n :: a <= n < b ==> Choice(x, max, n) == None
  }

  // --------------------------------------------------------------- sampling

  const RAND_NUM: nat := 0x8000_0000   // RAND_MAX + 1

  function BinSize(max: nat): nat {
    RAND_NUM / (max + 1)
  }

  /** What random_at_most makes of a raw value: nothing if it is in the defect. */
  function Sample(max: nat, raw: nat): Option<nat>
    requires max < RAND_NUM
  {
    DefectSmall(max);
    if RAND_NUM - RAND_NUM % (max + 1) <= raw then None else Some(raw / BinSize(max))
  }

  lemma DefectSmall(max: nat)
    requires max < RAND_NUM
    ensures BinSize(max) > 0 && RAND_NUM - RAND_NUM % (max + 1) == BinSize(max) * (max + 1)
  {
  }

  /** The raw values that give v. */
  ghost function Preimage(max: nat, v: nat): set<nat>
    requires max < RAND_NUM
  {
    set raw | raw in Sets.Below(RAND_NUM) && Sample(max, raw) == Some(v)
  }

  lemma MulOrder(x: nat, y: nat, b: nat)
    ensures x <= y ==> x * b <= y * b
  {
  }

  lemma DivExact(raw: nat, b: nat, v: nat)
    requires b > 0
    ensures raw / b == v <==> v * b <= raw < (v + 1) * b
  {
    var q := raw / b;
    assert raw == q * b + raw % b;
    MulOrder(q + 1, v, b);
    MulOrder(v + 1, q, b);
  }

  lemma InBin(max: nat, v: nat, raw: nat, b: nat)
    requires max < RAND_NUM && b == BinSize(max)
    ensures Sample(max, raw) == Some(v) <==> v <= max && v * b <= raw < (v + 1) * b
  {
    DefectSmall(max);
    DivExact(raw, b, v);
    MulOrder(v + 1, max + 1, b);
    MulOrder(max + 1, v, b);
  }

  /** Every result is as likely as every other: each has BinSize raw values, and results
      are at most max. */
  lemma Uniform(max: nat, v: nat)
    requires max < RAND_NUM
    ensures |Preimage(max, v)| == if v <= max then BinSize(max) else 0
  {
    var b := BinSize(max);
    DefectSmall(max);
    forall raw: nat ensures Sample(max, raw) == Some(v) <==> v <= max && v * b <= raw < (v + 1) * b { InBin(max, v, raw, b); }
    if v <= max {
      var lo, hi := v * b, (v + 1) * b;
      MulOrder(v + 1, max + 1, b);
      assert hi <= RAND_NUM && lo <= hi;
      assert Preimage(max, v) == Sets.Between(lo, hi);
      Sets.BetweenSize(lo, hi);
    } else {
      assert Preimage(max, v) == {};
    }
  }
}
