/**
 * The size-class ladder of `initialize_memory`: starting from the minimum
 * block size, one class per doubling while the size stays within the total
 * memory, each class starting with a single free block.
 */
module SizeClasses {

  /** 2 to the power k. */
  function Pow2(k: nat): (p: nat)
    ensures p >= 1
  {
    if k == 0 then 1 else 2 * Pow2(k - 1)
  }

  /** `b` is a power-of-two multiple of `min` that does not exceed `total`. */
  ghost predicate IsClass(b: nat, min: nat, total: nat) {
    b <= total && exists k: nat :: b == min * Pow2(k)
  }

  /**
   * The free lists the doubling loop builds from `current` on: every visited
   * size maps to a free count of one.
   */
  function Ladder(current: nat, total: nat): (fl: map<nat, nat>)
    requires current > 0
    ensures forall b :: b in fl ==> fl[b] == 1
    ensures forall b :: b in fl ==> current <= b <= total
    decreases total + 1 - current
  {
    if current > total then map[]
    else Ladder(2 * current, total)[current := 1]
  }

  lemma MulPow2Step(min: nat, k: nat)
    ensures min * Pow2(k + 1) == (2 * min) * Pow2(k)
  {
    assert Pow2(k + 1) == 2 * Pow2(k);
  }

  lemma MulPow2AtLeast(min: nat, k: nat)
    ensures min * Pow2(k) >= min
  {
    assert Pow2(k) >= 1;
  }

  /** The ladder holds exactly the power-of-two multiples of `min` up to `total`. */
  lemma {:induction false} LadderIsClasses(min: nat, total: nat)
    requires min > 0
    ensures forall b :: b in Ladder(min, total) <==> IsClass(b, min, total)
    decreases total + 1 - min
  {
    if min > total {
      forall b | IsClass(b, min, total)
        ensures false
      {
        var k: nat :| b == min * Pow2(k);
        MulPow2AtLeast(min, k);
      }
    } else {
      LadderIsClasses(2 * min, total);
      forall b
        ensures b in Ladder(min, total) <==> IsClass(b, min, total)
      {
        if b in Ladder(min, total) {
          if b == min {
            assert b == min * Pow2(0);
          } else {
            assert IsClass(b, 2 * min, total);
            var k: nat :| b == (2 * min) * Pow2(k);
            MulPow2Step(min, k);
          }
        }
        if IsClass(b, min, total) {
          var k: nat :| b == min * Pow2(k);
          if k > 0 {
            MulPow2Step(min, k - 1);
            assert IsClass(b, 2 * min, total);
          }
        }
      }
    }
  }

  /** The default configuration (1024 KB, 4 KB minimum) has the nine classes 4..1024. */
  lemma DefaultLadder()
    ensures Ladder(4, 1024) == map[4 := 1, 8 := 1, 16 := 1, 32 := 1, 64 := 1, 128 := 1, 256 := 1, 512 := 1, 1024 := 1]
  {
  }
}
