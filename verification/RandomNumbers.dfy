/** Random integers in a range, from six random bytes. */
module RandomNumbers {

  const DRAWS := 281474976710656   // 256^6

  datatype Result = RangeTooBig | NotANumber | Number(value: int)

  // The remainder takes the sign of the dividend, which is never negative here, and there is none by zero.
  function GetRandomInt(draw: nat, max: int, min: int): Result
    requires draw < DRAWS
  {
    if max - min > DRAWS - 1 then RangeTooBig
    else
      var size := max + 1 - min;
      if size == 0 then NotANumber
      else Number(draw % (if size > 0 then size else -size) + min)
  }

  /** Which ranges are refused: those with more numbers than there are draws. */
  lemma RefusedIffTooBig(draw: nat, max: int, min: int)
    requires draw < 281474976710656
    ensures GetRandomInt(draw, max, min).RangeTooBig? <==> max + 1 - min > 281474976710656
    ensures min <= max && max - min < 281474976710656 ==>
      GetRandomInt(draw, max, min) == Number(min + draw % (max + 1 - min))
  {
  }

  // How many of the first `n` draws give `value`.
  function CountDraws(n: nat, max: int, min: int, value: int): nat
    requires n <= DRAWS
  {
    if n == 0 then 0
    else CountDraws(n - 1, max, min, value) + if GetRandomInt(n - 1, max, min) == Number(value) then 1 else 0
  }

  lemma ProductBounds(d: int, size: int)
    requires size > 0
    ensures d >= 1 ==> d * size >= size
    ensures d <= -1 ==> d * size <= -size
  {
  }

  lemma UniqueDivision(n: int, size: int, q: int, r: int)
    requires 0 <= r < size && n == q * size + r
    ensures n / size == q && n % size == r
  {
    var q', r' := n / size, n % size;
    assert n == q' * size + r';
    assert (q' - q) * size == r - r';
    ProductBounds(q' - q, size);
  }

  // Counting one further moves the remainder, and the quotient when the remainder is full.
  lemma DivisionStep(n: nat, size: int)
    requires size > 0
    ensures if n % size == size - 1 then (n + 1) % size == 0 && (n + 1) / size == n / size + 1
            else (n + 1) % size == n % size + 1 && (n + 1) / size == n / size
  {
    var q, r := n / size, n % size;
    assert n == q * size + r;
    if r == size - 1 {
      assert n + 1 == (q + 1) * size;
      UniqueDivision(n + 1, size, q + 1, 0);
    } else {
      UniqueDivision(n + 1, size, q, r + 1);
    }
  }

  lemma {:induction false} CountOfDraws(n: nat, max: int, min: int, value: int)
    requires n <= DRAWS && min <= max && max - min <= DRAWS - 1 && min <= value <= max
    ensures CountDraws(n, max, min, value) == Share(n, max + 1 - min, value - min)
  {
    var size := max + 1 - min;
    if n > 0 {
      CountOfDraws(n - 1, max, min, value);
      assert GetRandomInt(n - 1, max, min) == Number((n - 1) % size + min);
      ShareGrows(n - 1, size, value - min);
    } else {
      UniqueDivision(0, size, 0, 0);
    }
  }

  // How many of `n` draws the k-th of `size` numbers gets.
  function Share(n: nat, size: int, k: int): int
    requires size > 0
  {
    n / size + if k < n % size then 1 else 0
  }

  lemma ShareGrows(n: nat, size: int, k: int)
    requires 0 <= k < size
    ensures Share(n + 1, size, k) == Share(n, size, k) + if n % size == k then 1 else 0
  {
    DivisionStep(n, size);
  }

  /** For every range that passes the check, all draws give numbers in the range, and every number in it is given
      by the floor or the ceiling of 2^48 / size of the 2^48 draws; the first `2^48 % size` numbers by one more. */
  lemma AlmostUniform(max: int, min: int, value: int)
    requires min <= max && max - min <= 281474976710655
    ensures forall draw :: 0 <= draw < 281474976710656 ==>
      GetRandomInt(draw, max, min).Number? && min <= GetRandomInt(draw, max, min).value <= max
    ensures min <= value <= max ==>
      var size := max + 1 - min;
      CountDraws(281474976710656, max, min, value) ==
        281474976710656 / size + if value - min < 281474976710656 % size then 1 else 0
  {
    if min <= value <= max {
      CountOfDraws(DRAWS, max, min, value);
    }
  }
}
