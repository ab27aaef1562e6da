/** Fixed-radix coding of a placement action (backend/env_uclb.py,
    `UCLB.decode_action`): digit i of the action, written in base
    `serverNum`, selects the server of user i, counted from 1. */
module ActionCodec {

  /** `base` raised to `n`; the number of distinct actions is
      `Pow(server_num, user_num)`. */
  function Pow(base: int, n: nat): (p: int)
    requires base >= 1
    ensures p >= 1
    ensures n > 0 ==> p >= base
  {
    if n == 0 then 1
    else
      var q := Pow(base, n - 1);
      MulAtLeast(q, base);
      base * q
  }

  /** One chosen server per user: user i gets `(action // serverNum^i) % serverNum + 1`.
      Python's `%` and `//` with a positive divisor round toward minus
      infinity, which is what Dafny's `%` and `/` do for a positive divisor,
      so any integer action decodes, negative ones included. */
  function Decode(action: int, userNum: nat, serverNum: int): (sel: seq<int>)
    requires serverNum >= 1
    ensures |sel| == userNum
    ensures forall i :: 0 <= i < |sel| ==> 1 <= sel[i] <= serverNum
    decreases userNum
  {
    if userNum == 0 then []
    else [action % serverNum + 1] + Decode(action / serverNum, userNum - 1, serverNum)
  }

  /** Every entry of `sel` names a server, 1 ..= serverNum. */
  predicate IsSelection(sel: seq<int>, serverNum: int)
  {
    forall i :: 0 <= i < |sel| ==> 1 <= sel[i] <= serverNum
  }

  /** The inverse digit composition: the action whose decoding is `sel`. */
  function Encode(sel: seq<int>, serverNum: int): (action: int)
    requires serverNum >= 1
    requires IsSelection(sel, serverNum)
    ensures 0 <= action < Pow(serverNum, |sel|)
  {
    if |sel| == 0 then 0
    else
      var rest := Encode(sel[1..], serverNum);
      EncodeBound(serverNum, sel[0] - 1, rest, Pow(serverNum, |sel| - 1));
      (sel[0] - 1) + serverNum * rest
  }

  // ---------------------------------------------------------------------
  // Arithmetic helpers

  lemma MulAtLeast(k: int, m: int)
    requires k >= 1 && m >= 1
    ensures k * m >= m && k * m >= k
  {
    assert k * m == (k - 1) * m + m;
    assert k * m == k * (m - 1) + k;
  }

  /** One more factor adds one more copy. */
  lemma MulSucc(c: int, n: int)
    ensures c * (n + 1) == c * n + c
  {
  }

  lemma MulMonotone(m: int, a: int, b: int)
    requires m >= 0 && a <= b
    ensures m * a <= m * b
  {
    assert m * b - m * a == m * (b - a);
  }

  /** A low digit plus `base` times a number below `p` stays below `base * p`. */
  lemma EncodeBound(base: int, digit: int, high: int, p: int)
    requires 0 <= digit < base && 0 <= high < p
    ensures 0 <= digit + base * high < base * p
  {
    MulMonotone(base, 0, high);
    MulMonotone(base, high, p - 1);
    assert base * (p - 1) == base * p - base;
  }

  /** Division with a positive divisor has exactly one quotient/remainder pair. */
  lemma DivModUnique(a: int, m: int, q: int, r: int)
    requires m > 0 && 0 <= r < m && a == q * m + r
    ensures a / m == q && a % m == r
  {
    var q0, r0 := a / m, a % m;
    assert a == q0 * m + r0;
    assert (q0 - q) * m == r - r0;
    if q0 > q {
      MulAtLeast(q0 - q, m);
      assert false;
    } else if q0 < q {
      assert (q - q0) * m == r0 - r;
      MulAtLeast(q - q0, m);
      assert false;
    }
  }

  // ---------------------------------------------------------------------
  // Round trips

  /** Decoding an encoded selection gives the selection back. */
  lemma {:induction false} DecodeEncode(sel: seq<int>, serverNum: int)
    requires serverNum >= 1
    requires IsSelection(sel, serverNum)
    ensures Decode(Encode(sel, serverNum), |sel|, serverNum) == sel
  {
    if |sel| > 0 {
      var rest := Encode(sel[1..], serverNum);
      var a := Encode(sel, serverNum);
      assert a == serverNum * rest + (sel[0] - 1);
      DivModUnique(a, serverNum, rest, sel[0] - 1);
      DecodeEncode(sel[1..], serverNum);
      assert Decode(a, |sel|, serverNum)
          == [sel[0]] + Decode(rest, |sel| - 1, serverNum);
      assert sel == [sel[0]] + sel[1..];
    }
  }

  /** Encoding the decoding of any integer gives that integer modulo the
      number of actions: decoding keeps only the low `userNum` digits. */
  lemma {:induction false} EncodeDecode(action: int, userNum: nat, serverNum: int)
    requires serverNum >= 1
    ensures Encode(Decode(action, userNum, serverNum), serverNum)
         == action % Pow(serverNum, userNum)
    decreases userNum
  {
    if userNum > 0 {
      var s := serverNum;
      var p' := Pow(s, userNum - 1);
      var hi := action / s;
      EncodeDecode(hi, userNum - 1, s);
      var sel := Decode(action, userNum, s);
      assert sel[1..] == Decode(hi, userNum - 1, s);
      assert Encode(sel, s) == action % s + s * (hi % p');
      DigitSplit(action, s, p');
    }
  }

  /** The remainder modulo `s * p` is the low digit plus `s` times the
      remainder of the quotient modulo `p`. */
  lemma DigitSplit(a: int, s: int, p: int)
    requires s >= 1 && p >= 1
    ensures a % (s * p) == a % s + s * ((a / s) % p)
  {
    var hi, lo := a / s, a % s;
    var q, mid := hi / p, hi % p;
    assert a == s * hi + lo;
    assert hi == p * q + mid;
    Regroup(a, s, p, hi, lo, q, mid);
    EncodeBound(s, lo, mid, p);
    DivModUnique(a, s * p, q, lo + s * mid);
  }

  lemma Regroup(a: int, s: int, p: int, hi: int, lo: int, q: int, mid: int)
    requires a == s * hi + lo && hi == p * q + mid
    ensures a == q * (s * p) + (lo + s * mid)
  {
    assert s * hi == s * (p * q) + s * mid;
    assert s * (p * q) == q * (s * p);
  }

  /** Actions inside the action space round-trip exactly. */
  lemma DecodeRoundTrip(action: int, userNum: nat, serverNum: int)
    requires serverNum >= 1
    requires 0 <= action < Pow(serverNum, userNum)
    ensures Encode(Decode(action, userNum, serverNum), serverNum) == action
  {
    EncodeDecode(action, userNum, serverNum);
    DivModUnique(action, Pow(serverNum, userNum), 0, action);
  }

  /** No range validation: an action outside the action space decodes like
      its remainder modulo the number of actions. */
  lemma DecodeIgnoresHighDigits(action: int, userNum: nat, serverNum: int)
    requires serverNum >= 1
    ensures Decode(action, userNum, serverNum)
         == Decode(action % Pow(serverNum, userNum), userNum, serverNum)
  {
    var sel := Decode(action, userNum, serverNum);
    EncodeDecode(action, userNum, serverNum);
    DecodeEncode(sel, serverNum);
  }

  /** Distinct actions inside the action space choose distinct servers. */
  lemma DecodeInjective(a: int, b: int, userNum: nat, serverNum: int)
    requires serverNum >= 1
    requires 0 <= a < Pow(serverNum, userNum) && 0 <= b < Pow(serverNum, userNum)
    requires Decode(a, userNum, serverNum) == Decode(b, userNum, serverNum)
    ensures a == b
  {
    DecodeRoundTrip(a, userNum, serverNum);
    DecodeRoundTrip(b, userNum, serverNum);
  }

  /** With three servers and one user, actions 0, 2 and 5 choose servers 1, 3, 3. */
  lemma DecodeExamples()
    ensures Decode(0, 1, 3) == [1]
    ensures Decode(2, 1, 3) == [3]
    ensures Decode(5, 1, 3) == [3]
  {
  }
}
