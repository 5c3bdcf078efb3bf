/**
 * `XGBFeatureSelection.feature_importances_`: the booster's split counts,
 * keyed by feature name, are scattered into a vector of `n_features` zeros.
 * The score map is an input here, given as its entries in iteration order.
 */
module XGBFeatureSelection {

  import opened Wrappers
  import opened Ascii

  /** `int(digits)` for a string of decimal digits. */
  function DecimalValue(digits: string): (v: nat)
    requires forall i :: 0 <= i < |digits| ==> IsDigit(digits[i])
    ensures v == 0 <==> forall i :: 0 <= i < |digits| ==> digits[i] == '0'
  {
    if digits == [] then 0
    else
      var n := |digits| - 1;
      10 * DecimalValue(digits[..n]) + DigitValue(digits[n])
  }

  /** Leading zeros do not change the value, so `f1` and `f01` name the same feature. */
  lemma {:induction false} LeadingZeroIgnored(digits: string)
    requires forall i :: 0 <= i < |digits| ==> IsDigit(digits[i])
    ensures DecimalValue("0" + digits) == DecimalValue(digits)
  {
    if digits != [] {
      var n := |digits| - 1;
      LeadingZeroIgnored(digits[..n]);
      assert ("0" + digits)[..|digits|] == "0" + digits[..n];
    }
  }

  /** The decimal spelling of `n`, without leading zeros. */
  function DecimalString(n: nat): (s: string)
    ensures |s| >= 1
    ensures forall i :: 0 <= i < |s| ==> IsDigit(s[i])
  {
    if n < 10 then [DigitChar(n)] else DecimalString(n / 10) + [DigitChar(n % 10)]
  }

  /** Reading back a spelled-out number gives the number. */
  lemma {:induction false} DecimalRoundTrip(n: nat)
    ensures DecimalValue(DecimalString(n)) == n
  {
    var s := DecimalString(n);
    if n >= 10 {
      DecimalRoundTrip(n / 10);
      assert s[..|s| - 1] == DecimalString(n / 10);
    }
  }

  /**
   * `int(k[1:])`: the feature index a score key names. Whatever the first
   * character is, it is skipped; the rest must be one or more digits.
   */
  function KeyIndex(key: string): (r: Option<nat>)
    ensures |key| <= 1 ==> r == None
    ensures |key| >= 2 && !IsDigit(key[1]) ==> r == None
    ensures r.Some? ==> (r.value == 0 <==> forall i :: 1 <= i < |key| ==> key[i] == '0')
  {
    if |key| >= 2 && forall i :: 1 <= i < |key| ==> IsDigit(key[i])
    then Some(DecimalValue(key[1..]))
    else None
  }

  /** The key `f<i>` the booster gives feature i when the features are unnamed. */
  function FeatureKey(i: nat): string {
    "f" + DecimalString(i)
  }

  /** The index parsed from the key of feature i is i. */
  lemma FeatureKeyRoundTrip(i: nat)
    ensures KeyIndex(FeatureKey(i)) == Some(i)
  {
    var key := FeatureKey(i);
    assert key[1..] == DecimalString(i);
    DecimalRoundTrip(i);
  }

  /** A run of `z` zero digits. */
  function Zeros(z: nat): string {
    seq(z, _ => '0')
  }

  /** Any number of leading zeros leaves the value unchanged. */
  lemma {:induction false} ZerosIgnored(z: nat, digits: string)
    requires forall i :: 0 <= i < |digits| ==> IsDigit(digits[i])
    ensures DecimalValue(Zeros(z) + digits) == DecimalValue(digits)
  {
    if z > 0 {
      ZerosIgnored(z - 1, digits);
      assert Zeros(z) + digits == "0" + (Zeros(z - 1) + digits);
      LeadingZeroIgnored(Zeros(z - 1) + digits);
    } else {
      assert Zeros(z) + digits == digits;
    }
  }

  /**
   * A digit string without leading zero (or a single digit) is the spelling
   * of its own value.
   */
  lemma {:induction false} CanonicalRoundTrip(digits: string)
    requires |digits| >= 1 && forall i :: 0 <= i < |digits| ==> IsDigit(digits[i])
    requires |digits| == 1 || digits[0] != '0'
    ensures DecimalString(DecimalValue(digits)) == digits
  {
    var n := |digits| - 1;
    var front, d := digits[..n], digits[n];
    assert DigitChar(DigitValue(d)) == d;
    if n > 0 {
      assert front[0] == digits[0];
      CanonicalRoundTrip(front);
      assert DecimalValue(front) != 0;
      var v := DecimalValue(digits);
      assert v / 10 == DecimalValue(front) && v % 10 == DigitValue(d);
      assert digits == front + [d];
    }
  }

  /** The zeros in front of a digit string's first significant digit (its last digit at most). */
  function LeadingZeros(digits: string): (z: nat)
    ensures z <= |digits|
  {
    if |digits| >= 2 && digits[0] == '0' then 1 + LeadingZeros(digits[1..]) else 0
  }

  /**
   * The leading zeros of a digit string are a run of zeros, and what follows
   * them is the spelling of its value.
   */
  lemma {:induction false} LeadingZerosSplit(digits: string)
    requires |digits| >= 1 && forall i :: 0 <= i < |digits| ==> IsDigit(digits[i])
    ensures digits[..LeadingZeros(digits)] == Zeros(LeadingZeros(digits))
    ensures digits[LeadingZeros(digits)..] == DecimalString(DecimalValue(digits))
  {
    if |digits| == 1 || digits[0] != '0' {
      CanonicalRoundTrip(digits);
    } else {
      var rest := digits[1..];
      var k := LeadingZeros(rest);
      LeadingZerosSplit(rest);
      assert LeadingZeros(digits) == k + 1;
      ZeroRunGrows(digits, k);
      assert digits[k + 1..] == rest[k..];
      assert "0" + rest == digits;
      LeadingZeroIgnored(rest);
    }
  }

  /** A zero in front of a run of zeros makes a run one longer. */
  lemma ZeroRunGrows(digits: string, k: nat)
    requires k < |digits| && digits[0] == '0'
    requires digits[1..][..k] == Zeros(k)
    ensures digits[..k + 1] == Zeros(k + 1)
  {
    forall j | 0 <= j < k + 1
      ensures digits[j] == '0'
    {
      if j > 0 {
        assert digits[j] == digits[1..][..k][j - 1];
      }
    }
  }

  /**
   * Every key of the form `<any character>` + zeros + spelling of i names
   * feature i, so `f7`, `f007` and `x7` all name 7.
   */
  lemma PaddedKeyIndex(c: char, z: nat, i: nat)
    ensures KeyIndex([c] + Zeros(z) + DecimalString(i)) == Some(i)
  {
    var key := [c] + Zeros(z) + DecimalString(i);
    assert key[1..] == Zeros(z) + DecimalString(i);
    ZerosIgnored(z, DecimalString(i));
    DecimalRoundTrip(i);
  }

  /**
   * Conversely, a key that parses to i is one of those: any first character,
   * then zeros, then the spelling of i. Every other key (`f1x`, `f-1`, `f`)
   * parses to nothing.
   */
  lemma KeyIndexParsed(key: string)
    requires KeyIndex(key).Some?
    ensures exists z :: key[1..] == Zeros(z) + DecimalString(KeyIndex(key).value)
  {
    var tail := key[1..];
    var z := LeadingZeros(tail);
    LeadingZerosSplit(tail);
    assert tail == tail[..z] + tail[z..];
    assert tail == Zeros(z) + DecimalString(KeyIndex(key).value);
  }

  /** Why the scatter stops: the Python code raises at the first bad entry. */
  datatype ScatterError =
    | NegativeCount(nFeatures: int)            // `np.zeros(n)` raises ValueError for n < 0
    | MalformedKey(key: string)                // `int(k[1:])` raises ValueError
    | IndexOutOfRange(key: string, index: nat) // `importances[i] = v` raises IndexError

  /** The index one entry writes to, or why it cannot be written. */
  function CheckKey(nFeatures: nat, key: string): (r: Result<nat, ScatterError>)
    ensures r.Success? <==> KeyIndex(key).Some? && KeyIndex(key).value < nFeatures
    ensures r.Success? ==> r.value == KeyIndex(key).value
    ensures r.Failure? ==> (r.error.MalformedKey? <==> KeyIndex(key).None?) && !r.error.NegativeCount? && r.error.key == key
    ensures r.Failure? && r.error.IndexOutOfRange? ==> KeyIndex(key).Some? && r.error.index == KeyIndex(key).value >= nFeatures
  {
    match KeyIndex(key)
    case None => Failure(MalformedKey(key))
    case Some(i) => if i < nFeatures then Success(i) else Failure(IndexOutOfRange(key, i))
  }

  /**
   * The importance of feature i after all the writes: the score of the last
   * entry whose key names i, or 0 when no key names it.
   */
  function LastWrite(fscores: seq<(string, int)>, i: nat): (v: int)
    ensures v != 0 ==> exists p :: 0 <= p < |fscores| && KeyIndex(fscores[p].0) == Some(i) && fscores[p].1 == v
  {
    if fscores == [] then 0
    else
      var n := |fscores| - 1;
      if KeyIndex(fscores[n].0) == Some(i) then fscores[n].1 else LastWrite(fscores[..n], i)
  }

  /** The vector the scatter produces when every write succeeds. */
  function ImportanceVector(nFeatures: nat, fscores: seq<(string, int)>): (v: seq<int>)
    ensures |v| == nFeatures
  {
    seq(nFeatures, i requires 0 <= i < nFeatures => LastWrite(fscores, i))
  }

  /** An index that no key names keeps its initial 0. */
  lemma {:induction false} UnnamedIndexStaysZero(fscores: seq<(string, int)>, i: nat)
    requires forall p :: 0 <= p < |fscores| ==> KeyIndex(fscores[p].0) != Some(i)
    ensures LastWrite(fscores, i) == 0
  {
    if fscores != [] {
      UnnamedIndexStaysZero(fscores[..|fscores| - 1], i);
    }
  }

  /** The entry at p holds the final score of index i when no later key names i. */
  lemma {:induction false} LastWriteWins(fscores: seq<(string, int)>, p: nat, i: nat)
    requires p < |fscores| && KeyIndex(fscores[p].0) == Some(i)
    requires forall q :: p < q < |fscores| ==> KeyIndex(fscores[q].0) != Some(i)
    ensures LastWrite(fscores, i) == fscores[p].1
  {
    var n := |fscores| - 1;
    if p < n {
      LastWriteWins(fscores[..n], p, i);
    }
  }

  /** `feature_importances_`, with the booster's score map given as its entries. */
  method FeatureImportances(nFeatures: int, fscores: seq<(string, int)>)
    returns (r: Result<seq<int>, ScatterError>)
    ensures nFeatures < 0 ==> r == Failure(NegativeCount(nFeatures))
    ensures r.Success? <==>
              nFeatures >= 0 && forall p :: 0 <= p < |fscores| ==> CheckKey(nFeatures, fscores[p].0).Success?
    ensures r.Success? ==> |r.value| == nFeatures
    ensures r.Success? ==> r.value == ImportanceVector(nFeatures, fscores)
    ensures r.Failure? && nFeatures >= 0 ==>
              exists p :: 0 <= p < |fscores| && CheckKey(nFeatures, fscores[p].0) == Failure(r.error)
                          && forall q :: 0 <= q < p ==> CheckKey(nFeatures, fscores[q].0).Success?
    ensures fscores == [] && nFeatures >= 0 ==> r == Success(seq(nFeatures, _ => 0))
  {
    if nFeatures < 0 {
      return Failure(NegativeCount(nFeatures));
    }
    var importances := new int[nFeatures](_ => 0);
    var k := 0;
    while k < |fscores|
      invariant k <= |fscores|
      invariant forall q :: 0 <= q < k ==> CheckKey(nFeatures, fscores[q].0).Success?
      invariant forall i: nat :: i < nFeatures ==> importances[i] == LastWrite(fscores[..k], i)
    {
      var (key, score) := fscores[k];
      match CheckKey(nFeatures, key) {
        case Failure(e) =>
          return Failure(e);
        case Success(i) =>
          importances[i] := score;
      }
      assert fscores[..k + 1][..k] == fscores[..k];
      k := k + 1;
    }
    assert fscores[..k] == fscores;
    assert importances[..] == ImportanceVector(nFeatures, fscores);
    assert fscores == [] ==> ImportanceVector(nFeatures, fscores) == seq(nFeatures, _ => 0);
    r := Success(importances[..]);
  }
}
