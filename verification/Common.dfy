/** Small definitions that several parts of the model share. */
module Common {

  datatype Option<T> = None | Some(value: T)

  function Bit(b: bool): nat {
    if b then 1 else 0
  }

  function NonNegative(n: int): nat {
    if n < 0 then 0 else n
  }

  /** How many of `times` lie between `lo` and `hi`. */
  function CountIn(times: seq<int>, lo: int, hi: int): (n: nat)
    ensures n <= |times|
  {
    if times == [] then 0 else Bit(lo <= times[0] <= hi) + CountIn(times[1..], lo, hi)
  }

  lemma {:induction false} CountFinds(times: seq<int>, lo: int, hi: int) returns (i: nat)
    requires CountIn(times, lo, hi) > 0
    ensures i < |times| && lo <= times[i] <= hi
  {
    if lo <= times[0] <= hi {
      i := 0;
    } else {
      i := CountFinds(times[1..], lo, hi);
      i := i + 1;
    }
  }
}
