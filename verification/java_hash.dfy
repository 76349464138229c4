/** The `int` hash codes of the JDK collections the authenticator data hashes:
    `Arrays.hashCode(byte[])` and `List.hashCode()`, both the fold
    `h = 31 * h + element` started at 1, in wrapping 32-bit arithmetic. */
module JavaHash {
  import opened Wrappers
  import opened JavaTypes

  /** The wrapping fold over `xs`, hashing each element with `hash`. */
  function HashFold<T>(xs: seq<T>, hash: T -> int32): int32 {
    if |xs| == 0 then 1
    else Wrap32(31 * HashFold(xs[..|xs| - 1], hash) + hash(xs[|xs| - 1]))
  }

  function Pow31(n: nat): (p: nat)
    ensures p >= 1
  {
    if n == 0 then 1 else 31 * Pow31(n - 1)
  }

  /** The exact sum of `31^(n-1-i) * hash(xs[i])` over the `n` elements. */
  function WeightedSum<T>(xs: seq<T>, hash: T -> int32): int {
    if |xs| == 0 then 0
    else Pow31(|xs| - 1) * hash(xs[0]) + WeightedSum(xs[1..], hash)
  }

  /** Appending one element multiplies the earlier weights by 31. */
  lemma {:induction false} WeightedSumAppend<T>(xs: seq<T>, x: T, hash: T -> int32)
    ensures WeightedSum(xs + [x], hash) == 31 * WeightedSum(xs, hash) + hash(x)
  {
    if |xs| == 0 {
      assert xs + [x] == [x];
      assert [x][1..] == [];
    } else {
      var ys := xs + [x];
      assert ys[0] == xs[0];
      assert ys[1..] == xs[1..] + [x];
      WeightedSumAppend(xs[1..], x, hash);
      calc {
        WeightedSum(ys, hash);
        Pow31(|xs|) * hash(xs[0]) + WeightedSum(xs[1..] + [x], hash);
        Pow31(|xs|) * hash(xs[0]) + 31 * WeightedSum(xs[1..], hash) + hash(x);
        { assert Pow31(|xs|) == 31 * Pow31(|xs| - 1); }
        31 * (Pow31(|xs| - 1) * hash(xs[0]) + WeightedSum(xs[1..], hash)) + hash(x);
      }
    }
  }

  /** The wrapping fold is the exact polynomial `31^n + sum 31^(n-1-i) * x_i`
      reduced once to an `int`: overflow in the middle of the loop loses nothing
      a final reduction would keep. */
  lemma {:induction false} HashFoldClosedForm<T>(xs: seq<T>, hash: T -> int32)
    ensures HashFold(xs, hash) == Wrap32(Pow31(|xs|) + WeightedSum(xs, hash))
  {
    if |xs| > 0 {
      var init, last := xs[..|xs| - 1], xs[|xs| - 1];
      assert xs == init + [last];
      var h := HashFold(init, hash);
      assert HashFold(xs, hash) == Wrap32(31 * h + hash(last));
      HashFoldClosedForm(init, hash);
      var exact := Pow31(|init|) + WeightedSum(init, hash);
      assert h == Wrap32(exact);
      Wrap32Step(exact, hash(last));
      WeightedSumAppend(init, last, hash);
      assert WeightedSum(xs, hash) == 31 * WeightedSum(init, hash) + hash(last);
      assert Pow31(|xs|) == 31 * Pow31(|init|);
      assert 31 * exact + hash(last) == Pow31(|xs|) + WeightedSum(xs, hash);
    }
  }

  /** `Arrays.hashCode(byte[])`: 0 for null, otherwise the fold over the
      bytes' signed values. */
  function ArraysHashCode(a: Option<seq<byte>>): int32 {
    match a
    case None => 0
    case Some(bytes) => HashFold(bytes, SignedByte)
  }

  /** `List.hashCode()` of a list whose elements hash with `hash`. */
  function ListHashCode<T>(elements: seq<T>, hash: T -> int32): int32 {
    HashFold(elements, hash)
  }
}
