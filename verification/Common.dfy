/** Shared vocabulary: optional values, results, machine-word bounds and a few
    sequence operations used by every other module. */
module Common {

  datatype Option<+T> = None | Some(value: T)

  datatype Result<+T, +E> = Ok(value: T) | Err(error: E)

  const U32_MAX: nat := 0xFFFF_FFFF
  const U64_MAX: nat := 0xFFFF_FFFF_FFFF_FFFF

  function Min(a: int, b: int): int {
    if a <= b then a else b
  }

  function Max(a: int, b: int): int {
    if a >= b then a else b
  }

  /** Truncated subtraction on naturals. */
  function SatSub(a: nat, b: nat): nat {
    if a <= b then 0 else a - b
  }

  function Sum(s: seq<nat>): nat {
    if |s| == 0 then 0 else Sum(s[..|s| - 1]) + s[|s| - 1]
  }

  lemma {:induction false} SumConcat(a: seq<nat>, b: seq<nat>)
    ensures Sum(a + b) == Sum(a) + Sum(b)
    decreases |b|
  {
    if |b| == 0 {
      assert a + b == a;
    } else {
      TakeConcat(a, b, 1);
      SumConcat(a, b[..|b| - 1]);
    }
  }

  lemma TakeConcat<T>(a: seq<T>, b: seq<T>, k: nat)
    requires k <= |b|
    ensures (a + b)[..|a + b| - k] == a + b[..|b| - k]
  {
  }

  /** The newest `k` elements of a sequence (all of it when it is shorter). */
  function Last<T>(s: seq<T>, k: nat): (r: seq<T>)
    ensures |r| == if k <= |s| then k else |s|
  {
    if k == 0 || |s| == 0 then [] else Last(s[..|s| - 1], k - 1) + [s[|s| - 1]]
  }

  /** All but the first `k` elements. */
  function Skip<T>(s: seq<T>, k: nat): (r: seq<T>)
    ensures |r| == if k <= |s| then |s| - k else 0
  {
    if |s| <= k then [] else Skip(s[..|s| - 1], k) + [s[|s| - 1]]
  }

  lemma {:induction false} LastConcat<T>(a: seq<T>, b: seq<T>, k: nat)
    ensures k <= |b| ==> Last(a + b, k) == Last(b, k)
    ensures k >= |b| ==> Last(a + b, k) == Last(a, k - |b|) + b
    decreases |b|
  {
    if |b| == 0 {
      assert a + b == a;
      assert Last(a, k) + b == Last(a, k);
    } else {
      TakeConcat(a, b, 1);
      if k > 0 {
        LastConcat(a, b[..|b| - 1], k - 1);
        assert b == b[..|b| - 1] + [b[|b| - 1]];
      }
    }
  }

  lemma LastOfConcat<T>(a: seq<T>, b: seq<T>, k: nat)
    ensures Last(a + b, k) == Last(a, SatSub(k, |b|)) + Last(b, Min(k, |b|))
  {
    LastConcat(a, b, k);
    if k <= |b| {
      Unit(Last(b, k));
    } else {
      LastAll(b, |b|);
    }
  }

  lemma {:induction false} LastAll<T>(s: seq<T>, k: nat)
    requires k >= |s|
    ensures Last(s, k) == s
  {
    if |s| > 0 {
      LastAll(s[..|s| - 1], k - 1);
      assert s == s[..|s| - 1] + [s[|s| - 1]];
    }
  }

  /** The dropped prefix and the kept suffix make the whole. */
  lemma {:induction false} LastSplit<T>(s: seq<T>, k: nat)
    requires k <= |s|
    ensures s[..|s| - k] + Last(s, k) == s
  {
    if k > 0 {
      LastSplit(s[..|s| - 1], k - 1);
      assert s == s[..|s| - 1] + [s[|s| - 1]];
    }
  }

  lemma {:induction false} LastMember<T>(s: seq<T>, k: nat, x: T)
    requires x in Last(s, k)
    ensures x in s
  {
    if x != s[|s| - 1] {
      LastMember(s[..|s| - 1], k - 1, x);
    }
  }

  lemma {:induction false} SkipConcat<T>(a: seq<T>, b: seq<T>, k: nat)
    requires k <= |a|
    ensures Skip(a + b, k) == Skip(a, k) + b
    decreases |b|
  {
    if |b| == 0 {
      assert a + b == a;
      assert Skip(a, k) + b == Skip(a, k);
    } else {
      TakeConcat(a, b, 1);
      SkipConcat(a, b[..|b| - 1], k);
      assert b == b[..|b| - 1] + [b[|b| - 1]];
    }
  }

  lemma {:induction false} SkipNone<T>(s: seq<T>)
    ensures Skip(s, 0) == s
  {
    if |s| > 0 {
      SkipNone(s[..|s| - 1]);
      assert s == s[..|s| - 1] + [s[|s| - 1]];
    }
  }

  /** `s` is a suffix of `t`. */
  ghost predicate Suffix<T(!new)>(s: seq<T>, t: seq<T>) {
    exists p :: t == p + s
  }

  lemma LastIsSuffix<T(!new)>(s: seq<T>, k: nat)
    ensures Suffix(Last(s, k), s)
  {
    if k <= |s| {
      LastSplit(s, k);
    } else {
      LastAll(s, k);
      assert s == [] + s;
    }
  }

  /** Forgetting a prefix of a suffix and then appending keeps the suffix. */
  lemma SuffixAppend<T(!new)>(s: seq<T>, t: seq<T>, u: seq<T>, w: seq<T>)
    requires Suffix(s, t) && Suffix(t, u)
    ensures Suffix(s + w, u + w)
  {
    var p :| u == p + t;
    var q :| t == q + s;
    assert u + w == (p + q) + (s + w);
  }

  lemma Unit<T>(a: seq<T>)
    ensures a + [] == a && [] + a == a
  {
  }

  lemma Assoc<T>(a: seq<T>, b: seq<T>, c: seq<T>)
    ensures (a + b) + c == a + (b + c)
  {
  }

  /** Round up to Arrow's 64-byte buffer alignment. */
  function Align64(x: nat): (r: nat)
    ensures r % 64 == 0 && x <= r < x + 64
  {
    (x + 63) / 64 * 64
  }

  /** Round up to the 8-byte alignment of control words. */
  function Align8(x: nat): (r: nat)
    ensures r % 8 == 0 && x <= r < x + 8
  {
    (x + 7) / 8 * 8
  }

  /** n modulo d. */
  function Wrap(n: nat, d: nat): (r: nat)
    requires d > 0
    ensures r < d
  {
    if n < d then n else Wrap(n - d, d)
  }

  lemma {:induction false} NextWrap(n: nat, d: nat)
    requires d > 0
    ensures Wrap(n + 1, d) == if Wrap(n, d) + 1 == d then 0 else Wrap(n, d) + 1
  {
    if n >= d {
      NextWrap(n - d, d);
    } else if n + 1 == d {
      assert Wrap(0, d) == 0;
    }
  }
}
