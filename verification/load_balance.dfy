/** Load accounting and the load-imbalance statistic of
    `UCLB.get_load_mad` (backend/env_uclb.py). Loads are whole multiples of
    the chunk size, so they are integers here; the mean absolute deviation
    is an exact real instead of a floating-point number. */
module LoadBalance {
  import opened ActionCodec

  /** Sum of an integer sequence. */
  function Sum(xs: seq<int>): int
  {
    if |xs| == 0 then 0 else xs[0] + Sum(xs[1..])
  }

  /** How many users chose server `v`. */
  function Count(sel: seq<int>, v: int): (n: nat)
    ensures n <= |sel|
  {
    if |sel| == 0 then 0 else (if sel[0] == v then 1 else 0) + Count(sel[1..], v)
  }

  /** Appending one choice adds one to its own count only. */
  lemma {:induction false} CountSnoc(sel: seq<int>, x: int, v: int)
    ensures Count(sel + [x], v) == Count(sel, v) + (if x == v then 1 else 0)
    decreases |sel|
  {
    if |sel| > 0 {
      assert (sel + [x])[1..] == sel[1..] + [x];
      CountSnoc(sel[1..], x, v);
    } else {
      assert (sel + [x])[1..] == [];
    }
  }

  /** The first half of `get_load_mad`: for each user, in order, add one
      chunk to the load of the server it chose (1-based). */
  function AddLoad(load: seq<int>, sel: seq<int>, chunkSize: int): (r: seq<int>)
    requires IsSelection(sel, |load|)
    ensures |r| == |load|
    decreases |sel|
  {
    if |sel| == 0 then load
    else
      var k := sel[0] - 1;
      AddLoad(load[k := load[k] + chunkSize], sel[1..], chunkSize)
  }

  /** Each server's load grows by one chunk per user that chose it. */
  lemma {:induction false} AddLoadCharges(load: seq<int>, sel: seq<int>, chunkSize: int, j: int)
    requires IsSelection(sel, |load|)
    requires 0 <= j < |load|
    ensures AddLoad(load, sel, chunkSize)[j] == load[j] + chunkSize * Count(sel, j + 1)
    decreases |sel|
  {
    if |sel| > 0 {
      var k := sel[0] - 1;
      AddLoadCharges(load[k := load[k] + chunkSize], sel[1..], chunkSize, j);
      if j == k {
        MulSucc(chunkSize, Count(sel[1..], j + 1));
      }
    }
  }

  /** Adding `d` to one entry adds `d` to the sum. */
  lemma {:induction false} SumUpdate(xs: seq<int>, k: int, d: int)
    requires 0 <= k < |xs|
    ensures Sum(xs[k := xs[k] + d]) == Sum(xs) + d
  {
    if k > 0 {
      SumUpdate(xs[1..], k - 1, d);
      assert xs[k := xs[k] + d][1..] == xs[1..][k - 1 := xs[k] + d];
    }
  }

  /** The total load rises by exactly one chunk per user. */
  lemma {:induction false} AddLoadTotal(load: seq<int>, sel: seq<int>, chunkSize: int)
    requires IsSelection(sel, |load|)
    ensures Sum(AddLoad(load, sel, chunkSize)) == Sum(load) + chunkSize * |sel|
    decreases |sel|
  {
    if |sel| > 0 {
      var k := sel[0] - 1;
      SumUpdate(load, k, chunkSize);
      AddLoadTotal(load[k := load[k] + chunkSize], sel[1..], chunkSize);
      MulSucc(chunkSize, |sel[1..]|);
    }
  }

  /** With a non-negative chunk size, no load ever decreases, and a server
      nobody chose keeps its load. */
  lemma AddLoadMonotone(load: seq<int>, sel: seq<int>, chunkSize: int)
    requires IsSelection(sel, |load|)
    requires chunkSize >= 0
    ensures forall j :: 0 <= j < |load| ==> AddLoad(load, sel, chunkSize)[j] >= load[j]
    ensures forall j :: 0 <= j < |load| && Count(sel, j + 1) == 0 ==> AddLoad(load, sel, chunkSize)[j] == load[j]
  {
    var r := AddLoad(load, sel, chunkSize);
    forall j | 0 <= j < |load|
      ensures r[j] >= load[j]
      ensures Count(sel, j + 1) == 0 ==> r[j] == load[j]
    {
      AddLoadCharges(load, sel, chunkSize, j);
      assert chunkSize * Count(sel, j + 1) >= 0;
    }
  }

  /** Mean of the loads. */
  function Mean(load: seq<int>): real
    requires |load| > 0
  {
    Sum(load) as real / |load| as real
  }

  /** Sum of |x - mu| over the loads. */
  function AbsDeviation(load: seq<int>, mu: real): (d: real)
    ensures d >= 0.0
  {
    if |load| == 0 then 0.0
    else
      var x := load[0] as real - mu;
      (if x < 0.0 then -x else x) + AbsDeviation(load[1..], mu)
  }

  /** The second half of `get_load_mad`: the mean absolute deviation of
      the loads from their own mean. */
  function Mad(load: seq<int>): (m: real)
    requires |load| > 0
    ensures m >= 0.0
  {
    AbsDeviation(load, Mean(load)) / |load| as real
  }

  /** `get_load_mad` as a whole: the updated loads and their deviation. */
  datatype LoadMad = LoadMad(load: seq<int>, mad: real)

  function GetLoadMad(load: seq<int>, sel: seq<int>, chunkSize: int): (r: LoadMad)
    requires |load| > 0
    requires IsSelection(sel, |load|)
    ensures |r.load| == |load|
    ensures forall j :: 0 <= j < |load| ==> r.load[j] == load[j] + chunkSize * Count(sel, j + 1)
    ensures Sum(r.load) == Sum(load) + chunkSize * |sel|
    ensures r.mad >= 0.0
    ensures r.mad == Mad(r.load)
  {
    AddLoadTotal(load, sel, chunkSize);
    var l := AddLoad(load, sel, chunkSize);
    forall j | 0 <= j < |load|
      ensures l[j] == load[j] + chunkSize * Count(sel, j + 1)
    {
      AddLoadCharges(load, sel, chunkSize, j);
    }
    LoadMad(l, Mad(l))
  }

  // ---------------------------------------------------------------------
  // The deviation is zero exactly on balanced loads

  predicate Balanced(load: seq<int>)
  {
    forall i, j :: 0 <= i < |load| && 0 <= j < |load| ==> load[i] == load[j]
  }

  lemma {:induction false} SumConstant(load: seq<int>, c: int)
    requires forall i :: 0 <= i < |load| ==> load[i] == c
    ensures Sum(load) == |load| * c
  {
    if |load| > 0 {
      SumConstant(load[1..], c);
    }
  }

  lemma {:induction false} AbsDeviationAtValue(load: seq<int>, c: int)
    requires forall i :: 0 <= i < |load| ==> load[i] == c
    ensures AbsDeviation(load, c as real) == 0.0
  {
    if |load| > 0 {
      AbsDeviationAtValue(load[1..], c);
    }
  }

  lemma {:induction false} AbsDeviationZero(load: seq<int>, mu: real)
    requires AbsDeviation(load, mu) == 0.0
    ensures forall i :: 0 <= i < |load| ==> load[i] as real == mu
  {
    if |load| > 0 {
      AbsDeviationZero(load[1..], mu);
      forall i | 0 <= i < |load|
        ensures load[i] as real == mu
      {
        if i > 0 {
          assert load[i] == load[1..][i - 1];
        }
      }
    }
  }

  lemma MeanOfConstant(k: int, c: int)
    requires k > 0
    ensures (k * c) as real / k as real == c as real
  {
    assert (k * c) as real == k as real * c as real;
  }

  /** The deviation is zero if and only if every server carries the same load. */
  lemma MadZeroIffBalanced(load: seq<int>)
    requires |load| > 0
    ensures Mad(load) == 0.0 <==> Balanced(load)
  {
    var n := |load| as real;
    if Balanced(load) {
      var c := load[0];
      SumConstant(load, c);
      MeanOfConstant(|load|, c);
      assert Mean(load) == c as real;
      AbsDeviationAtValue(load, c);
    }
    if Mad(load) == 0.0 {
      assert AbsDeviation(load, Mean(load)) == 0.0;
      AbsDeviationZero(load, Mean(load));
    }
  }

  /** Loads 1, 2, 3 deviate from their mean 2 by 2/3 on average. */
  lemma MadExample()
    ensures Mad([1, 2, 3]) == 2.0 / 3.0
    ensures Mad([2, 2, 2]) == 0.0
  {
    var l := [1, 2, 3];
    assert Sum(l) == 6 by {
      assert l[1..] == [2, 3];
      assert l[1..][1..] == [3];
    }
    assert Mean(l) == 2.0;
    assert AbsDeviation(l, 2.0) == 2.0 by {
      assert l[1..] == [2, 3];
      assert l[1..][1..] == [3];
    }
    MadZeroIffBalanced([2, 2, 2]);
  }
}
