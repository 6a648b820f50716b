/**
 * BIcolors.py: a palette of 27 or 64 web-safe colours. The colours are
 * enumerated red-major from a list of channel levels, then reordered by
 * taking every `step`-th one modulo the size, and served round-robin.
 */
module Colors {
  import opened Runtime

  // ---------------------------------------------------------------------
  // Arithmetic

  /** Multiplying by a non-negative number keeps the order. */
  lemma MulMono(a: int, b: int, n: int)
    requires n >= 0
    ensures a <= b ==> a * n <= b * n
  {
    assert b * n - a * n == (b - a) * n;
  }

  /** The quotient and remainder of `q * n + b` by `n`, for `0 <= b < n`. */
  lemma DivMod(q: int, b: int, n: int)
    requires n > 0 && 0 <= b < n
    ensures (q * n + b) / n == q && (q * n + b) % n == b
  {
    var x := q * n + b;
    var d := x / n - q;
    assert d * n == b - x % n by {
      assert x == (x / n) * n + x % n;
      assert d * n == (x / n) * n - q * n;
    }
    MulMono(1, d, n);
    MulMono(d, -1, n);
  }

  /** The only multiple of `n` strictly between `-n` and `n` is 0. */
  lemma SmallMultiple(x: int, n: int)
    requires n > 0 && -n < x < n && x % n == 0
    ensures x == 0
  {
    assert x == (x / n) * n;
    MulMono(1, x / n, n);
    MulMono(x / n, -1, n);
  }

  /** Adding a multiple of `n` does not change the remainder. */
  lemma ModShift(x: int, q: int, n: int)
    requires n > 0
    ensures (x + q * n) % n == x % n
  {
    assert x + q * n == (x / n + q) * n + x % n;
    DivMod(x / n + q, x % n, n);
  }

  /** Adding to a remainder and reducing again is adding and reducing once. */
  lemma ModAddMod(a: int, b: int, n: int)
    requires n > 0
    ensures (a % n + b) % n == (a + b) % n
  {
    assert a + b == (a % n + b) + (a / n) * n by {
      assert a == (a / n) * n + a % n;
    }
    ModShift(a % n + b, a / n, n);
  }

  /** Equal remainders: the difference is a multiple. */
  lemma ModDiff(a: int, b: int, n: int)
    requires n > 0 && a % n == b % n
    ensures (a - b) % n == 0
  {
    assert a - b == 0 + (a / n - b / n) * n;
    ModShift(0, a / n - b / n, n);
  }

  /** The remainder of a product is that of the product of remainders. */
  lemma ModMul(x: int, s: int, p: int)
    requires p > 0
    ensures (x * s) % p == ((x % p) * (s % p)) % p
  {
    var qx, rx, qs, rs := x / p, x % p, s / p, s % p;
    assert x == qx * p + rx && s == qs * p + rs;
    assert x * s == rx * rs + (qx * qs * p + qx * rs + rx * qs) * p;
    ModShift(rx * rs, qx * qs * p + qx * rs + rx * qs, p);
  }

  /** 2 and 3 are prime: they divide a product only through a factor. */
  lemma PrimeFactor(p: int, x: int, s: int)
    requires p == 2 || p == 3
    requires (x * s) % p == 0 && s % p != 0
    ensures x % p == 0
  {
    ModMul(x, s, p);
    var rx, rs := x % p, s % p;
    assert rx == 0 || rx == 1 || rx == 2;
    assert rs == 1 || rs == 2;
    assert rx == 0 || rx * rs == 1 || rx * rs == 2 || rx * rs == 4;
  }

  function Pow(p: nat, e: nat): (r: nat)
    ensures p > 0 ==> r > 0
  {
    if e == 0 then 1 else p * Pow(p, e - 1)
  }

  /** A multiple of `p * m` is a multiple of `p` and, divided by `p`, of `m`. */
  lemma ModFactor(y: int, p: int, m: int)
    requires p > 0 && m > 0 && y % (p * m) == 0
    ensures y % p == 0
    ensures (y / p) % m == 0
  {
    var k := y / (p * m);
    assert y == k * (p * m);
    assert y == 0 + (k * m) * p;
    ModShift(0, k * m, p);
    DivMod(k * m, 0, p);
    assert y / p == k * m;
    ModShift(0, k, m);
  }

  /** A prime power that divides `x * s`, where the prime does not divide `s`, divides `x`. */
  lemma {:induction false} PowerFactor(p: nat, e: nat, x: int, s: int)
    requires p == 2 || p == 3
    requires (x * s) % Pow(p, e) == 0 && s % p != 0
    ensures x % Pow(p, e) == 0
  {
    if e > 0 {
      var m := Pow(p, e - 1);
      ModFactor(x * s, p, m);
      PrimeFactor(p, x, s);
      var x' := x / p;
      assert x == x' * p;
      assert x * s == (x' * s) * p;
      DivMod(x' * s, 0, p);
      assert (x * s) / p == x' * s;
      PowerFactor(p, e - 1, x', s);
      var j := x' / m;
      assert x' == j * m;
      assert x == 0 + j * (p * m);
      ModShift(0, j, p * m);
    }
  }

  predicate Divides(d: int, a: int)
    requires d > 0
  {
    a % d == 0
  }

  /** No common divisor above 1. */
  ghost predicate Coprime(a: int, b: int)
  {
    forall d :: d > 1 && Divides(d, a) ==> !Divides(d, b)
  }

  /** A non-negative number below the divisor is its own remainder. */
  lemma SmallMod(x: int, d: int)
    requires 0 <= x && d > 0
    ensures x < d ==> x % d == x
  {
    if x < d {
      DivMod(0, x, d);
    }
  }

  /** The default step 7 is coprime with both palette sizes. */
  lemma DefaultStepCoprime()
    ensures Coprime(7, 27) && Coprime(7, 64)
  {
    forall d | d > 1 && Divides(d, 7) ensures !Divides(d, 27) && !Divides(d, 64) {
      SmallMod(7, d);
      assert d == 2 || d == 3 || d == 4 || d == 5 || d == 6 || d == 7;
    }
  }

  /** The positions `colors` takes from the enumeration. */
  function Position(i: int, step: int, size: nat): nat
    requires size > 0
  {
    (i * step) % size
  }

  /**
   * For a step coprime to the size, distinct entries take distinct
   * positions: the reordering is a permutation.
   */
  lemma PositionsDistinct(step: int, size: nat)
    requires size == 27 || size == 64
    requires Coprime(step, size)
    ensures forall i, j :: 0 <= i < size && 0 <= j < size && Position(i, step, size) == Position(j, step, size) ==> i == j
  {
    var p, e := if size == 27 then 3 else 2, if size == 27 then 3 else 6;
    assert Pow(p, e) == size by {
      assert Pow(3, 3) == 27 && Pow(2, 6) == 64;
    }
    assert step % p != 0 by {
      assert Divides(p, size);
    }
    forall i, j | 0 <= i < size && 0 <= j < size && Position(i, step, size) == Position(j, step, size)
      ensures i == j
    {
      ModDiff(j * step, i * step, size);
      assert j * step - i * step == (j - i) * step;
      PowerFactor(p, e, j - i, step);
      SmallMultiple(j - i, size);
    }
  }

  // ---------------------------------------------------------------------
  // Pigeonhole

  function Elements(s: seq<int>): set<int>
  {
    set x | x in s
  }

  lemma {:induction false} DistinctElements(s: seq<int>)
    requires forall i, j :: 0 <= i < j < |s| ==> s[i] != s[j]
    ensures |Elements(s)| == |s|
  {
    if |s| > 0 {
      var init := s[..|s| - 1];
      DistinctElements(init);
      assert Elements(s) == Elements(init) + {s[|s| - 1]};
      assert s[|s| - 1] !in Elements(init);
    }
  }

  function Iota(n: nat): (r: seq<int>)
    ensures |r| == n && forall i :: 0 <= i < n ==> r[i] == i
  {
    seq(n, i => i)
  }

  /** A subset as large as its superset is the whole set. */
  lemma SubsetSize(a: set<int>, b: set<int>)
    requires a <= b && |a| == |b|
    ensures a == b
  {
    var d := b - a;
    assert b == a + d && a * d == {};
    assert |d| == 0;
    assert forall x :: x in b ==> x in a || x in d;
  }

  /** n distinct values below n take every value below n. */
  lemma Pigeonhole(s: seq<int>, n: nat)
    requires |s| == n
    requires forall i :: 0 <= i < n ==> 0 <= s[i] < n
    requires forall i, j :: 0 <= i < j < |s| ==> s[i] != s[j]
    ensures forall k :: 0 <= k < n ==> k in s
  {
    var all := Iota(n);
    DistinctElements(s);
    DistinctElements(all);
    assert Elements(s) <= Elements(all) by {
      forall x | x in Elements(s) ensures x in Elements(all) {
        assert all[x] == x;
      }
    }
    SubsetSize(Elements(s), Elements(all));
    forall k | 0 <= k < n ensures k in s {
      assert all[k] == k && k in Elements(all);
    }
  }

  // ---------------------------------------------------------------------
  // Enumerating the colours

  /** The channel levels of each size, or none for a size the palette refuses. */
  function Levels(size: int): (r: Option<seq<string>>)
    ensures r.Some? <==> size == 27 || size == 64
    ensures r.Some? ==> |r.value| * |r.value| * |r.value| == size
  {
    if size == 27 then Some(["00", "66", "CC"])
    else if size == 64 then Some(["00", "44", "88", "CC"])
    else None
  }

  /** Each size has distinct two-digit levels, the first being 00. */
  lemma LevelsWellFormed(size: int)
    requires Levels(size).Some?
    ensures var c := Levels(size).value;
            && |c| > 0 && c[0] == "00" && |c| * |c| * |c| == size
            && (forall i :: 0 <= i < |c| ==> |c[i]| == 2)
            && (forall i, j :: 0 <= i < j < |c| ==> c[i] != c[j])
  {
    var c := Levels(size).value;
    if size == 27 {
      assert c[1][0] == '6' && c[2][0] == 'C';
    } else {
      assert c[1][0] == '4' && c[2][0] == '8' && c[3][0] == 'C';
    }
  }

  /** The quoted colour `"#rrggbb"`. */
  function Hex(r: string, g: string, b: string): string
  {
    "\"#" + r + g + b + "\""
  }

  /** The position `k` in the enumeration, read as red, green and blue digits in base `n`. */
  lemma Digits(k: int, n: int)
    requires n > 0 && 0 <= k < n * n * n
    ensures 0 <= (k / n) / n < n && 0 <= (k / n) % n < n && 0 <= k % n < n
    ensures k == ((k / n) / n * n + (k / n) % n) * n + k % n
  {
    var q := k / n;
    DivBound(k, n, n * n);
    DivBound(q, n, n);
    assert k == q * n + k % n;
    assert q == (q / n) * n + q % n;
  }

  /** The quotient of a number below `m * n` by `n` is below `m`. */
  lemma DivBound(x: int, n: int, m: int)
    requires n > 0 && 0 <= x < m * n
    ensures 0 <= x / n < m
  {
    assert x == (x / n) * n + x % n;
    MulMono(m, x / n, n);
    MulMono(x / n, -1, n);
  }

  /** The k-th colour of the enumeration over levels `c`: blue varies fastest, then green, then red. */
  function CubeAt(c: seq<string>, k: nat): string
    requires |c| > 0 && k < |c| * |c| * |c|
  {
    var n := |c|;
    Digits(k, n);
    Hex(c[(k / n) / n], c[(k / n) % n], c[k % n])
  }

  /** The first `m` colours of the enumeration. */
  function CubePrefix(c: seq<string>, m: nat): (r: seq<string>)
    requires |c| > 0 && m <= |c| * |c| * |c|
    ensures |r| == m
  {
    if m == 0 then [] else CubePrefix(c, m - 1) + [CubeAt(c, m - 1)]
  }

  lemma {:induction false} CubePrefixAt(c: seq<string>, m: nat)
    requires |c| > 0 && m <= |c| * |c| * |c|
    ensures forall k :: 0 <= k < m ==> CubePrefix(c, m)[k] == CubeAt(c, k)
  {
    if m > 0 {
      CubePrefixAt(c, m - 1);
    }
  }

  /** The enumeration `rgbs`. */
  function Cube(c: seq<string>): (r: seq<string>)
    requires |c| > 0
    ensures |r| == |c| * |c| * |c|
  {
    CubePrefix(c, |c| * |c| * |c|)
  }

  /** The entry for red `r`, green `g` and blue `b`. */
  lemma CubeEntry(c: seq<string>, n: nat, r: nat, g: nat, b: nat)
    requires n == |c| && r < n && g < n && b < n
    ensures (r * n + g) * n + b < n * n * n
    ensures CubeAt(c, (r * n + g) * n + b) == Hex(c[r], c[g], c[b])
  {
    DivMod(r * n + g, b, n);
    DivMod(r, g, n);
    MulMono(r, n - 1, n);
    assert r * n + g <= n * n - 1;
    MulMono(r * n + g, n * n - 1, n);
    assert (n * n - 1) * n == n * n * n - n;
  }

  lemma HexParts(r: string, g: string, b: string)
    requires |r| == 2 && |g| == 2 && |b| == 2
    ensures var h := Hex(r, g, b); |h| == 9 && h[2..4] == r && h[4..6] == g && h[6..8] == b
  {
  }

  /** Distinct positions of the enumeration hold distinct colours. */
  lemma CubeInjective(c: seq<string>, k: nat, l: nat)
    requires |c| > 0 && k < |c| * |c| * |c| && l < |c| * |c| * |c|
    requires forall i :: 0 <= i < |c| ==> |c[i]| == 2
    requires forall i, j :: 0 <= i < j < |c| ==> c[i] != c[j]
    ensures CubeAt(c, k) == CubeAt(c, l) ==> k == l
  {
    var n := |c|;
    Digits(k, n);
    Digits(l, n);
    var rk, gk, bk := (k / n) / n, (k / n) % n, k % n;
    var rl, gl, bl := (l / n) / n, (l / n) % n, l % n;
    HexParts(c[rk], c[gk], c[bk]);
    HexParts(c[rl], c[gl], c[bl]);
    if CubeAt(c, k) == CubeAt(c, l) {
      assert c[rk] == c[rl] && c[gk] == c[gl] && c[bk] == c[bl];
      assert rk == rl && gk == gl && bk == bl;
    }
  }

  /** The first colour is black. */
  lemma FirstIsBlack(c: seq<string>)
    requires |c| > 0 && c[0] == "00"
    ensures CubeAt(c, 0) == "\"#000000\""
  {
    assert Hex("00", "00", "00") == "\"#000000\"";
  }

  /** `colors`: entry i is the enumeration's entry `(i * step) % size`. */
  function Reordered(rgbs: seq<string>, step: int): (r: seq<string>)
    requires |rgbs| > 0
    ensures |r| == |rgbs|
    ensures forall i :: 0 <= i < |r| ==> r[i] == rgbs[Position(i, step, |rgbs|)]
  {
    seq(|rgbs|, i requires 0 <= i < |rgbs| => rgbs[Position(i, step, |rgbs|)])
  }

  /** The enumeration has no repeated colour. */
  lemma CubeDistinct(c: seq<string>)
    requires |c| > 0
    requires forall i :: 0 <= i < |c| ==> |c[i]| == 2
    requires forall i, j :: 0 <= i < j < |c| ==> c[i] != c[j]
    ensures forall k, l :: 0 <= k < l < |Cube(c)| ==> Cube(c)[k] != Cube(c)[l]
  {
    var n := |c|;
    CubePrefixAt(c, n * n * n);
    forall k, l | 0 <= k < l < |Cube(c)| ensures Cube(c)[k] != Cube(c)[l] {
      CubeInjective(c, k, l);
    }
  }

  /**
   * Reordering distinct entries by distinct positions: the result has no
   * repeated entry, and holds every entry of the original.
   */
  lemma ReorderedPermutes(rgbs: seq<string>, step: int)
    requires |rgbs| > 0
    requires forall k, l :: 0 <= k < l < |rgbs| ==> rgbs[k] != rgbs[l]
    requires forall i, j :: 0 <= i < |rgbs| && 0 <= j < |rgbs| && Position(i, step, |rgbs|) == Position(j, step, |rgbs|) ==> i == j
    ensures var colors := Reordered(rgbs, step);
            && (forall i, j :: 0 <= i < j < |colors| ==> colors[i] != colors[j])
            && (forall k :: 0 <= k < |rgbs| ==> rgbs[k] in colors)
            && (forall i :: 0 <= i < |colors| ==> colors[i] in rgbs)
  {
    var size := |rgbs|;
    var colors := Reordered(rgbs, step);
    var ps := seq(size, i requires 0 <= i < size => Position(i, step, size) as int);
    Pigeonhole(ps, size);
    forall k | 0 <= k < size ensures rgbs[k] in colors {
      assert k in ps;
      var i :| 0 <= i < size && ps[i] == k;
      assert colors[i] == rgbs[k];
    }
  }

  /**
   * For a valid size and a step coprime to it, `colors` holds every web
   * colour of the enumeration exactly once, starting with black.
   */
  lemma ReorderedIsPermutation(size: nat, step: int)
    requires Levels(size).Some? && Coprime(step, size)
    ensures var rgbs := Cube(Levels(size).value);
            var colors := Reordered(rgbs, step);
            && |colors| == |rgbs| == size
            && colors[0] == "\"#000000\""
            && (forall i, j :: 0 <= i < j < size ==> colors[i] != colors[j])
            && (forall k :: 0 <= k < size ==> rgbs[k] in colors)
            && (forall i :: 0 <= i < size ==> colors[i] in rgbs)
  {
    var c := Levels(size).value;
    var rgbs := Cube(c);
    var colors := Reordered(rgbs, step);
    assert colors[0] == "\"#000000\"" by {
      LevelsWellFormed(size);
      CubePrefixAt(c, size);
      FirstIsBlack(c);
      assert 0 * step == 0;
      DivMod(0, 0, size);
    }
    assert && (forall i, j :: 0 <= i < j < size ==> colors[i] != colors[j])
           && (forall k :: 0 <= k < size ==> rgbs[k] in colors)
           && (forall i :: 0 <= i < size ==> colors[i] in rgbs) by {
      LevelsWellFormed(size);
      PositionsDistinct(step, size);
      CubeDistinct(c);
      ReorderedPermutes(rgbs, step);
    }
  }

  /** A step sharing a factor with the size repeats colours: step 3 of 27 comes back to black after 9. */
  lemma SharedFactorRepeats(rgbs: seq<string>)
    requires |rgbs| == 27
    ensures Reordered(rgbs, 3)[9] == Reordered(rgbs, 3)[0] == rgbs[0]
  {
    assert Position(9, 3, 27) == 0 && Position(0, 3, 27) == 0;
  }

  // ---------------------------------------------------------------------
  // The palette

  /** The message for a size other than 27 or 64. */
  const SizeError: string := "Error in generatePalette: palette size should be either 27 or 64!\n"

  /** Draws of `nextColor` from pointer `ptr`: `colors[ptr]`, then the pointer moves on modulo `period`. */
  function Draws(colors: seq<string>, ptr: nat, period: nat, k: nat): (r: seq<string>)
    requires 0 < period <= |colors| && ptr < period
    ensures |r| == k
    decreases k
  {
    if k == 0 then [] else [colors[ptr]] + Draws(colors, (ptr + 1) % period, period, k - 1)
  }

  /** The i-th draw from position `ptr` is `colors[(ptr + i) % period]`. */
  lemma {:induction false} DrawsCycle(colors: seq<string>, ptr: nat, period: nat, k: nat)
    requires 0 < period <= |colors| && ptr < period
    ensures |Draws(colors, ptr, period, k)| == k
    ensures forall i :: 0 <= i < k ==> Draws(colors, ptr, period, k)[i] == colors[(ptr + i) % period]
    decreases k
  {
    if k > 0 {
      var next := (ptr + 1) % period;
      DrawsCycle(colors, next, period, k - 1);
      forall i | 0 <= i < k ensures Draws(colors, ptr, period, k)[i] == colors[(ptr + i) % period] {
        if i == 0 {
          DivMod(0, ptr, period);
        } else {
          assert Draws(colors, ptr, period, k)[i] == Draws(colors, next, period, k - 1)[i - 1];
          ModAddMod(ptr + 1, i - 1, period);
        }
      }
    }
  }

  /**
   * `nextColor` as written wraps at the class default 27, since `size` is
   * never assigned: on a 64-colour palette the first 27 colours repeat and
   * the other 37 are never served.
   */
  lemma ServesOnlyFirst27(colors: seq<string>, k: nat)
    requires |colors| == 64
    ensures forall i :: 0 <= i < k ==> Draws(colors, 0, 27, k)[i] == colors[i % 27]
    ensures k > 27 ==> Draws(colors, 0, 27, k)[27] == colors[0]
  {
    DrawsCycle(colors, 0, 27, k);
  }

  /** With the palette's own size as the period, every colour is served before any repeats. */
  lemma ServesAll(colors: seq<string>, k: nat)
    requires |colors| > 0
    ensures forall i :: 0 <= i < k ==> Draws(colors, 0, |colors|, k)[i] == colors[i % |colors|]
    ensures forall i :: 0 <= i < k && i < |colors| ==> Draws(colors, 0, |colors|, k)[i] == colors[i]
  {
    DrawsCycle(colors, 0, |colors|, k);
    forall i | 0 <= i < k && i < |colors| ensures Draws(colors, 0, |colors|, k)[i] == colors[i] {
      DivMod(0, i, |colors|);
    }
  }

  /** `Palette`. */
  class Palette {
    /** The class attribute `size`: the constructor's argument never replaces it. */
    const size: nat
    var colors: seq<string>
    var ptr: nat

    ghost predicate Valid()
      reads this
    {
      size == 27 && ptr < size
    }

    /**
     * `Palette(step, size)`: for size 27 or 64 the web colours reordered
     * by `step`; any other size writes an error and leaves `colors` empty.
     */
    constructor (step: int, size: int, err: Stream)
      modifies err
      ensures this.size == 27 && ptr == 0 && Valid()
      ensures Levels(size).None? ==> colors == [] && err.text == old(err.text) + SizeError
      ensures Levels(size).Some? ==> colors == Reordered(Cube(Levels(size).value), step) && err.text == old(err.text)
    {
      this.size := 27;
      ptr := 0;
      var c: seq<string> := [];
      if size == 27 {
        c := ["00", "66", "CC"];
      } else if size == 64 {
        c := ["00", "44", "88", "CC"];
      }
      if c == [] {
        err.Write(SizeError);
        colors := [];
      } else {
        var rgbs := WebColors(c);
        var cs := Reorder(rgbs, step);
        colors := cs;
      }
    }

    /** The loop taking every `step`-th colour modulo the size, `idx` starting at 0. */
    static method Reorder(rgbs: seq<string>, step: int) returns (cs: seq<string>)
      requires |rgbs| > 0
      ensures cs == Reordered(rgbs, step)
    {
      var size := |rgbs|;
      var idx := 0;
      cs := [];
      for i := 0 to size
        invariant |cs| == i && idx == Position(i, step, size)
        invariant forall j :: 0 <= j < i ==> cs[j] == rgbs[Position(j, step, size)]
      {
        cs := cs + [rgbs[idx]];
        ModAddMod(i * step, step, size);
        assert i * step + step == (i + 1) * step;
        idx := (idx + step) % size;
      }
    }

    /** The triple loop building `rgbs`: red, then green, then blue, blue fastest. */
    static method WebColors(c: seq<string>) returns (rgbs: seq<string>)
      requires |c| > 0
      ensures rgbs == Cube(c)
    {
      var n := |c|;
      rgbs := [];
      for r := 0 to n
        invariant r * n * n <= n * n * n && rgbs == CubePrefix(c, r * n * n)
      {
        assert (r * n + 0) * n == r * n * n;
        for g := 0 to n
          invariant (r * n + g) * n <= n * n * n && rgbs == CubePrefix(c, (r * n + g) * n)
        {
          for b := 0 to n
            invariant (r * n + g) * n + b <= n * n * n && rgbs == CubePrefix(c, (r * n + g) * n + b)
          {
            CubeEntry(c, n, r, g, b);
            rgbs := rgbs + [Hex(c[r], c[g], c[b])];
          }
          assert (r * n + g) * n + n == (r * n + (g + 1)) * n;
        }
        assert (r * n + n) * n == (r + 1) * n * n;
      }
    }

    /**
     * `nextColor()`: the colour under the pointer, which then moves on
     * modulo 27; with no colours, IndexError.
     */
    method NextColor() returns (r: Result<string>)
      requires Valid()
      modifies this
      ensures Valid() && colors == old(colors)
      ensures old(ptr) < |colors| ==> r == Ok(colors[old(ptr)]) && ptr == (old(ptr) + 1) % size
      ensures old(ptr) >= |colors| ==> r == Err(IndexError) && ptr == old(ptr)
    {
      if ptr >= |colors| {
        return Err(IndexError);
      }
      var c := colors[ptr];
      ptr := (ptr + 1) % size;
      return Ok(c);
    }

    /** `nextColor()` with the pointer wrapping at the number of colours, so that all are served. */
    method NextColorCycling() returns (r: Result<string>)
      requires ptr < |colors| || colors == []
      modifies this
      ensures colors == old(colors) && (ptr < |colors| || colors == [])
      ensures |colors| > 0 ==> r == Ok(colors[old(ptr)]) && ptr == (old(ptr) + 1) % |colors|
      ensures |colors| == 0 ==> r == Err(IndexError) && ptr == old(ptr)
    {
      if |colors| == 0 {
        return Err(IndexError);
      }
      var c := colors[ptr];
      ptr := (ptr + 1) % |colors|;
      return Ok(c);
    }
  }
}
