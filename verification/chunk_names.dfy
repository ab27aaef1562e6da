/** The names of chunk files, `f"{file_id}_chunk_{chunk_index}"` in
    backend/server.py: Python's decimal `str` of an integer, and the proof
    that a chunk file name determines its file id and index, so that the
    chunk store may be keyed by the pair. */
module ChunkNames {

  function DigitChar(d: int): (c: char)
    requires 0 <= d < 10
    ensures '0' <= c <= '9'
  {
    "0123456789"[d]
  }

  predicate IsDigit(c: char)
  {
    '0' <= c <= '9'
  }

  function DigitValue(c: char): (d: int)
    requires IsDigit(c)
    ensures 0 <= d < 10
  {
    c as int - '0' as int
  }

  /** Decimal digits of a natural number, most significant first, without
      leading zeros. */
  function NatToString(n: nat): (s: string)
    ensures |s| >= 1
    ensures forall i :: 0 <= i < |s| ==> IsDigit(s[i])
    decreases n
  {
    if n < 10 then [DigitChar(n)] else NatToString(n / 10) + [DigitChar(n % 10)]
  }

  /** `str(i)` for a Python int: a minus sign for negative values. */
  function IntToString(i: int): (s: string)
    ensures |s| >= 1
    ensures forall k :: 0 <= k < |s| ==> s[k] != '_'
    ensures (s[0] == '-') <==> i < 0
  {
    if i < 0 then "-" + NatToString(-i) else NatToString(i)
  }

  /** The value of a string of decimal digits. */
  function ParseNat(s: string): (n: nat)
    requires forall i :: 0 <= i < |s| ==> IsDigit(s[i])
    decreases |s|
  {
    if |s| == 0 then 0 else 10 * ParseNat(s[..|s| - 1]) + DigitValue(s[|s| - 1])
  }

  function ParseInt(s: string): int
    requires |s| >= 1
    requires s[0] == '-' ==> forall i :: 1 <= i < |s| ==> IsDigit(s[i])
    requires s[0] != '-' ==> forall i :: 0 <= i < |s| ==> IsDigit(s[i])
  {
    if s[0] == '-' then -(ParseNat(s[1..]) as int) else ParseNat(s)
  }

  lemma DigitRoundTrip(d: int)
    requires 0 <= d < 10
    ensures DigitValue(DigitChar(d)) == d
  {
  }

  lemma {:induction false} NatRoundTrip(n: nat)
    ensures ParseNat(NatToString(n)) == n
    decreases n
  {
    var s := NatToString(n);
    if n < 10 {
      DigitRoundTrip(n);
      assert s[..0] == [];
    } else {
      NatRoundTrip(n / 10);
      DigitRoundTrip(n % 10);
      assert s[..|s| - 1] == NatToString(n / 10);
    }
  }

  /** Reading the decimal text back gives the integer. */
  lemma IntRoundTrip(i: int)
    ensures ParseInt(IntToString(i)) == i
  {
    if i < 0 {
      NegativeRoundTrip(-i);
    } else {
      NatRoundTrip(i);
    }
  }

  lemma NegativeRoundTrip(n: nat)
    ensures ParseInt("-" + NatToString(n)) == -(n as int)
  {
    var s := "-" + NatToString(n);
    assert s[0] == '-';
    assert s[1..] == NatToString(n);
    NatRoundTrip(n);
  }

  /** Different integers have different decimal texts. */
  lemma IntToStringInjective(i: int, j: int)
    requires IntToString(i) == IntToString(j)
    ensures i == j
  {
    IntRoundTrip(i);
    IntRoundTrip(j);
  }

  const Infix: string := "_chunk_"

  /** The chunk file name of chunk `index` of file `fileId`. */
  function ChunkFileName(fileId: string, index: int): (name: string)
    ensures |name| > |fileId| + |Infix|
    ensures name[..|fileId|] == fileId
  {
    fileId + Infix + IntToString(index)
  }

  /** Two chunk file names that are equal have file ids of equal length:
      the decimal index never contains `_`, so the infix cannot sit in two
      places. */
  lemma {:induction false} SameIdLength(id1: string, i1: int, id2: string, i2: int)
    requires ChunkFileName(id1, i1) == ChunkFileName(id2, i2)
    ensures |id1| == |id2|
  {
    if |id1| < |id2| {
      LaterInfixImpossible(id1, i1, id2, i2);
    } else if |id2| < |id1| {
      LaterInfixImpossible(id2, i2, id1, i1);
    }
  }

  lemma LaterInfixImpossible(short: string, i: int, long: string, j: int)
    requires |short| < |long|
    ensures ChunkFileName(short, i) != ChunkFileName(long, j)
  {
    var w := ChunkFileName(long, j);
    var p := |long| + |Infix| - 1;
    assert w[p] == '_';
    var s := IntToString(i);
    var v := ChunkFileName(short, i);
    if |v| == |w| {
      var k := p - |short| - |Infix|;
      assert 0 <= k < |s|;
      assert v[p] == s[k] != '_';
    }
  }

  /** A chunk file name determines both the file id and the chunk index,
      so distinct (file id, index) pairs never share a chunk file. */
  lemma ChunkFileNameInjective(id1: string, i1: int, id2: string, i2: int)
    requires ChunkFileName(id1, i1) == ChunkFileName(id2, i2)
    ensures id1 == id2 && i1 == i2
  {
    SameIdLength(id1, i1, id2, i2);
    var w := ChunkFileName(id1, i1);
    assert id1 == w[..|id1|] == id2;
    assert IntToString(i1) == w[|id1| + |Infix|..] == IntToString(i2);
    IntToStringInjective(i1, i2);
  }

  /** `f"{file_id}_chunk_{i}"` on sample values. */
  lemma ChunkFileNameExamples()
    ensures ChunkFileName("f1", 0) == "f1_chunk_0"
    ensures ChunkFileName("f1", 12) == "f1_chunk_12"
    ensures ChunkFileName("f1", -3) == "f1_chunk_-3"
  {
    assert NatToString(12) == "12" by {
      assert NatToString(1) == "1";
    }
  }
}
