/** The names given to philosophers when a simulation starts. */
module Names {

  /** The preset names, handed out first and in this order. */
  const NAMES: seq<string> :=
    ["Herr mymuesli", "Herr Dr. Oetker", "Herr Seitenbacher", "Herr Kellogg", "Herr Kölln"]

  function DigitChar(d: nat): char
    requires d < 10
  {
    ('0' as int + d) as char
  }

  function DigitValue(c: char): int
  {
    c as int - '0' as int
  }

  /** The decimal digits of `n`, without leading zeros (`Integer.toString` on a non-negative int). */
  function Decimal(n: nat): (r: string)
    ensures |r| >= 1
    ensures forall i :: 0 <= i < |r| ==> '0' <= r[i] <= '9'
    ensures (r[0] == '0') == (n == 0)
  {
    if n < 10 then [DigitChar(n)] else Decimal(n / 10) + [DigitChar(n % 10)]
  }

  /** The number a string of decimal digits stands for. */
  function DecimalValue(s: string): int
  {
    if s == [] then 0 else DecimalValue(s[..|s| - 1]) * 10 + DigitValue(s[|s| - 1])
  }

  /** Reading the digits back gives the number written. */
  lemma {:induction false} DecimalRoundTrip(n: nat)
    ensures DecimalValue(Decimal(n)) == n
  {
    if n >= 10 {
      var s := Decimal(n);
      assert s[..|s| - 1] == Decimal(n / 10);
      DecimalRoundTrip(n / 10);
    }
  }

  /** Different numbers are written differently. */
  lemma DecimalInjective(a: nat, b: nat)
    ensures Decimal(a) == Decimal(b) ==> a == b
  {
    DecimalRoundTrip(a);
    DecimalRoundTrip(b);
  }

  /** The name the `k`-th call of `nextName` hands out, counting calls from 1. */
  function NameOfCall(k: nat): string
    requires k >= 1
  {
    if k <= |NAMES| then NAMES[k - 1] else "#" + Decimal(k)
  }

  /** The first five calls give the preset names, from "Herr mymuesli" to "Herr Kölln". */
  lemma PresetCalls()
    ensures NameOfCall(1) == "Herr mymuesli"
    ensures NameOfCall(5) == "Herr Kölln"
    ensures forall k :: 1 <= k <= 5 ==> NameOfCall(k) == NAMES[k - 1]
  {
  }

  /** The sixth call gives "#6". */
  lemma SixthCall()
    ensures NameOfCall(6) == "#6"
  {
    assert Decimal(6) == "6";
  }

  /** No two preset names are equal (their lengths already differ). */
  lemma PresetsDistinct(i: nat, j: nat)
    requires i < j < |NAMES|
    ensures NAMES[i] != NAMES[j]
  {
    assert |NAMES[0]| == 13 && |NAMES[1]| == 15 && |NAMES[2]| == 17;
    assert |NAMES[3]| == 12 && |NAMES[4]| == 10;
  }

  /** One provider never hands out the same name twice. */
  lemma NamesDistinct(j: nat, k: nat)
    requires 1 <= j && 1 <= k && j != k
    ensures NameOfCall(j) != NameOfCall(k)
  {
    if j <= |NAMES| && k <= |NAMES| {
      if j < k { PresetsDistinct(j - 1, k - 1); } else { PresetsDistinct(k - 1, j - 1); }
    } else if j <= |NAMES| {
      assert NAMES[j - 1][0] == 'H';
      assert NameOfCall(k)[0] == '#';
    } else if k <= |NAMES| {
      assert NAMES[k - 1][0] == 'H';
      assert NameOfCall(j)[0] == '#';
    } else {
      DecimalInjective(j, k);
      assert NameOfCall(j)[1..] == Decimal(j);
      assert NameOfCall(k)[1..] == Decimal(k);
    }
  }

  /** A cursor over the names; one provider serves one start of the simulation. */
  class PhilosopherNameProvider {
    var currentIndex: int

    /** The cursor only moves forward from -1. */
    ghost predicate Valid()
      reads this
    {
      currentIndex >= -1
    }

    constructor ()
      ensures Valid() && currentIndex == -1
    {
      currentIndex := -1;
    }

    /** Post-increments the cursor; the comparison uses the value before the increment,
        the array access the value after it. The cursor plus one counts the calls made. */
    method NextName() returns (name: string)
      requires Valid()
      modifies this
      ensures Valid() && currentIndex == old(currentIndex) + 1
      ensures name == NameOfCall(currentIndex + 1)
    {
      var before := currentIndex;
      currentIndex := currentIndex + 1;
      if before < |NAMES| - 1 {
        name := NAMES[currentIndex];
      } else {
        name := "#" + Decimal(currentIndex + 1);
      }
    }
  }
}
