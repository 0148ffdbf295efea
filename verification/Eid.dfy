/** Check digits of eUICC identifiers (section 10 of SGP.29), as pysim/pySim/euicc.py computes them. */
module Eid {
  import opened Wrappers

  type digit = d: int | 0 <= d < 10

  /** `int(s)` of a string of digits. */
  function Val(s: seq<digit>): nat {
    if s == [] then 0 else 10 * Val(s[..|s| - 1]) + s[|s| - 1]
  }

  /** `str(n)`. */
  function Str(n: nat): (s: seq<digit>)
    ensures s != []
  {
    if n < 10 then [n] else Str(n / 10) + [n % 10]
  }

  /** `compute_eid_checksum` of a number: the last two digits are replaced. */
  function ComputeInt(eid: nat): nat {
    var base := eid - eid % 100;
    base + (98 - base % 97)
  }

  /** `compute_eid_checksum` of a string; `None` is the ValueError. */
  function Compute(eid: seq<digit>): Option<seq<digit>> {
    if |eid| == 30 then Some(Str(ComputeInt(Val(eid + [0, 0]))))
    else if |eid| == 32 then Some(Str(ComputeInt(Val(eid[..30] + [0, 0]))))
    else None
  }

  /** `verify_eid_checksum`. */
  predicate Verify(eid: nat) {
    eid % 97 == 1
  }

  // ---------------------------------------------------------------------------------------
  // Numbers and their digits

  function Pow10(n: nat): (p: nat)
    ensures p > 0
  {
    if n == 0 then 1 else 10 * Pow10(n - 1)
  }

  /** A string of digits without a leading zero is what its number is written as. */
  lemma {:induction false} StrOfVal(s: seq<digit>)
    requires s != [] && (s[0] != 0 || |s| == 1)
    ensures Str(Val(s)) == s
  {
    var t := s[..|s| - 1];
    if |s| > 1 {
      StrOfVal(t);
      ValPositive(t);
    } else {
      assert t == [] && s == [s[0]];
    }
  }

  lemma {:induction false} ValPositive(s: seq<digit>)
    requires s != [] && s[0] != 0
    ensures Val(s) > 0
  {
    if |s| > 1 {
      ValPositive(s[..|s| - 1]);
    }
  }

  /** A number is written with no more digits than any string that denotes it. */
  lemma {:induction false} StrIsShortest(s: seq<digit>)
    requires s != []
    ensures |Str(Val(s))| <= |s|
  {
    if |s| > 1 {
      StrIsShortest(s[..|s| - 1]);
    } else {
      assert s[..0] == [];
    }
  }

  // ---------------------------------------------------------------------------------------
  // Computed check digits

  /** Whatever the last two digits were, the computed value verifies, and only they were changed. */
  lemma ComputedVerifies(eid: nat)
    ensures Verify(ComputeInt(eid))
    ensures ComputeInt(eid) / 100 == eid / 100 && 2 <= ComputeInt(eid) % 100 <= 98
  {
    var q := eid / 100;
    var k := 100 * q / 97;
    assert eid - eid % 100 == 100 * q;
    assert ComputeInt(eid) == 97 * (k + 1) + 1;
    OneMoreThanMultiple(k + 1);
    SplitHundred(q, 98 - 100 * q % 97);
  }

  lemma OneMoreThanMultiple(k: nat)
    ensures (97 * k + 1) % 97 == 1
  {
  }

  lemma SplitHundred(q: nat, c: nat)
    requires c < 100
    ensures (100 * q + c) / 100 == q && (100 * q + c) % 100 == c
  {
  }

  /** The check value is the only one between 2 and 98 that verifies. */
  lemma CheckValueIsUnique(eid: nat, c: nat)
    requires 2 <= c <= 98
    ensures Verify(eid - eid % 100 + c) <==> eid - eid % 100 + c == ComputeInt(eid)
  {
    OnlyOneRemainder(eid - eid % 100, c);
  }

  lemma OnlyOneRemainder(base: nat, c: nat)
    requires 2 <= c <= 98
    ensures (base + c) % 97 == 1 <==> c == 98 - base % 97
  {
    var q, r := base / 97, base % 97;
    assert base + c == 97 * q + (r + c);
    SameModulo(q, r + c);
  }

  lemma SameModulo(q: nat, n: nat)
    ensures (97 * q + n) % 97 == n % 97
  {
  }

  /** The computed string: the given digits, then the two digits of the check value. */
  lemma ComputedDigits(eid: seq<digit>)
    requires |eid| >= 30 && eid[0] != 0
    ensures var n := Val(eid[..30] + [0, 0]);
            var c := ComputeInt(n) % 100;
            Str(ComputeInt(n)) == eid[..30] + [c / 10, c % 10]
  {
    hide ComputeInt, Val, Str;
    var base := eid[..30];
    var n := Val(base + [0, 0]);
    var c := ComputeInt(n) % 100;
    TwoMore(base, 0, 0);
    TwoMore(base, c / 10, c % 10);
    ComputedVerifies(n);
    LastTwoReplaced(Val(base), ComputeInt(n));
    StrOfVal(base + [c / 10, c % 10]);
  }

  lemma LastTwoReplaced(q: nat, m: nat)
    requires m / 100 == 100 * q / 100
    ensures m == 100 * q + 10 * (m % 100 / 10) + m % 100 % 10
  {
  }

  lemma TwoMore(s: seq<digit>, a: digit, b: digit)
    ensures Val(s + [a, b]) == 100 * Val(s) + 10 * a + b
  {
    assert (s + [a, b])[..|s| + 1] == s + [a];
    assert (s + [a])[..|s|] == s;
  }

  /**
   An identifier with a nonzero first digit keeps its first 30 digits, gets two check digits and
   verifies. With a leading zero the result is shorter than 32 digits.
   */
  lemma ComputeKeepsIdentifier(eid: seq<digit>)
    requires |eid| == 30 || |eid| == 32
    ensures Compute(eid).Some? && Verify(Val(Compute(eid).value))
    ensures |Compute(eid).value| == 32 <==> eid[0] != 0
    ensures eid[0] != 0 ==> Compute(eid).value[..30] == eid[..30]
  {
    hide ComputeInt, Val, Str;
    var n := Val(eid[..30] + [0, 0]);
    assert |eid| == 30 ==> eid[..30] == eid;
    var c := ComputeInt(n) % 100;
    var padded := eid[..30] + [c / 10, c % 10];
    ComputedVerifies(n);
    TwoMore(eid[..30], 0, 0);
    TwoMore(eid[..30], c / 10, c % 10);
    ValOfStr(ComputeInt(n));
    if eid[0] != 0 {
      ComputedDigits(eid);
    } else {
      DropZero(padded);
      StrIsShortest(padded[1..]);
    }
  }

  /** For instance of thirty zeros only the two check digits are left. */
  lemma ZerosAreLost(eid: seq<digit>)
    requires |eid| == 30 && forall i :: 0 <= i < 30 ==> eid[i] == 0
    ensures Compute(eid) == Some([9, 8])
  {
    ValOfZeros(eid + [0, 0]);
    assert Compute(eid) == Some(Str(ComputeInt(0)));
    assert ComputeInt(0) == 98 && Str(98) == [9] + [8] == [9, 8];
  }

  lemma {:induction false} ValOfZeros(s: seq<digit>)
    requires forall i :: 0 <= i < |s| ==> s[i] == 0
    ensures Val(s) == 0
  {
    if s != [] {
      ValOfZeros(s[..|s| - 1]);
    }
  }

  lemma {:induction false} ValOfStr(n: nat)
    ensures Val(Str(n)) == n
  {
    if n >= 10 {
      ValOfStr(n / 10);
      assert Str(n)[..|Str(n)| - 1] == Str(n / 10);
    } else {
      assert Str(n)[..0] == [];
    }
  }

  lemma {:induction false} DropZero(s: seq<digit>)
    requires |s| >= 2 && s[0] == 0
    ensures Val(s[1..]) == Val(s)
  {
    var t := s[..|s| - 1];
    if |s| > 2 {
      DropZero(t);
      assert s[1..][..|s| - 2] == t[1..];
    } else {
      assert s[1..][..0] == [] && t[..0] == [];
    }
  }

  // ---------------------------------------------------------------------------------------
  // Errors the check digits catch

  /** 10 is invertible modulo 97. */
  lemma {:induction false} PowersAreInvertible(d: int, k: nat)
    requires (d * Pow10(k)) % 97 == 0
    ensures d % 97 == 0
  {
    if k > 0 {
      var x := d * Pow10(k - 1);
      assert d * Pow10(k) == 10 * x;
      assert x % 97 == 0;
      PowersAreInvertible(d, k - 1);
    }
  }

  lemma SameRemainder(m: nat, n: nat)
    requires m % 97 == 1 && n % 97 == 1
    ensures (m - n) % 97 == 0
  {
  }

  /** Two numbers that differ by a shifted small number are not both accepted. */
  lemma NotBoth(m: nat, n: nat, d: int, k: nat)
    requires m - n == d * Pow10(k) && d != 0 && -97 < d < 97
    requires Verify(m)
    ensures !Verify(n)
  {
    hide Pow10;
    if Verify(n) {
      SameRemainder(m, n);
      PowersAreInvertible(d, k);
    }
  }

  lemma {:induction false} ValOfConcat(a: seq<digit>, b: seq<digit>)
    ensures Val(a + b) == Val(a) * Pow10(|b|) + Val(b)
  {
    if b == [] {
      assert a + b == a;
    } else {
      var c := b[..|b| - 1];
      ValOfConcat(a, c);
      assert (a + b)[..|a + b| - 1] == a + c;
      assert Val(a) * Pow10(|b|) == 10 * (Val(a) * Pow10(|c|));
    }
  }

  /** If two numbers differ only in a middle part, their difference is that of the parts, shifted. */
  lemma MiddleDifference(a: seq<digit>, x: seq<digit>, y: seq<digit>, b: seq<digit>)
    requires |x| == |y|
    ensures Val(a + x + b) - Val(a + y + b) == (Val(x) - Val(y)) * Pow10(|b|)
  {
    hide Val, Pow10;
    ValOfConcat(a + x, b);
    ValOfConcat(a + y, b);
    ValOfConcat(a, x);
    ValOfConcat(a, y);
    Distribute(Val(a + x), Val(a + y), Pow10(|b|));
  }

  lemma Distribute(u: nat, v: nat, p: nat)
    ensures (u - v) * p == u * p - v * p
  {
  }

  /** In an accepted number of any length no single changed digit is accepted. */
  lemma SingleErrorIsCaught(a: seq<digit>, x: digit, y: digit, b: seq<digit>)
    requires x != y && Verify(Val(a + [x] + b))
    ensures !Verify(Val(a + [y] + b))
  {
    MiddleDifference(a, [x], [y], b);
    assert Val([x]) == x && Val([y]) == y;
    NotBoth(Val(a + [x] + b), Val(a + [y] + b), x - y, |b|);
  }

  /** In an accepted number of any length no swap of two unequal adjacent digits is accepted. */
  lemma SwapIsCaught(a: seq<digit>, x: digit, y: digit, b: seq<digit>)
    requires x != y && Verify(Val(a + [x, y] + b))
    ensures !Verify(Val(a + [y, x] + b))
  {
    MiddleDifference(a, [x, y], [y, x], b);
    TwoMore([], x, y);
    TwoMore([], y, x);
    assert [] + [x, y] == [x, y] && [] + [y, x] == [y, x];
    NotBoth(Val(a + [x, y] + b), Val(a + [y, x] + b), 9 * (x - y), |b|);
  }
}
