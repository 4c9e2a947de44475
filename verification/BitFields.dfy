/**
 The sequencer's t_btfld: a 32-bit word used as one flag per data bit. A word is modelled as its
 32 bits, bit 0 first, so that a shift drops what leaves the word.
 */
module BitFields {

  const WIDTH := 32

  type Field = s: seq<bool> | |s| == WIDTH witness seq(WIDTH, _ => false)

  function Zero(): Field {
    seq(WIDTH, _ => false)
  }

  /** The mask with the n lowest bits set. */
  function Low(n: nat): Field {
    seq(WIDTH, k => k < n)
  }

  function Or(a: Field, b: Field): Field {
    seq(WIDTH, k requires 0 <= k < WIDTH => a[k] || b[k])
  }

  function And(a: Field, b: Field): Field {
    seq(WIDTH, k requires 0 <= k < WIDTH => a[k] && b[k])
  }

  function Not(a: Field): Field {
    seq(WIDTH, k requires 0 <= k < WIDTH => !a[k])
  }

  function Shl(a: Field, n: nat): Field {
    seq(WIDTH, k requires 0 <= k < WIDTH => n <= k && a[k - n])
  }

  function Shr(a: Field, n: nat): Field {
    seq(WIDTH, k requires 0 <= k < WIDTH => k + n < WIDTH && a[k + n])
  }

  /** A loop that looks at bit 0 and shifts right visits the bits in order. */
  lemma ShrNext(a: Field, i: nat)
    ensures Shr(a, 0) == a
    ensures i < WIDTH ==> Shr(a, i)[0] == a[i]
    ensures Shr(Shr(a, i), 1) == Shr(a, i + 1)
  {
    assert forall k | 0 <= k < WIDTH :: Shr(a, 0)[k] == a[k];
    assert forall k | 0 <= k < WIDTH :: Shr(Shr(a, i), 1)[k] == Shr(a, i + 1)[k];
  }

  /** A field confined to n bits equals the n-bit mask exactly when every one of them is set. */
  lemma FullMask(a: Field, n: nat)
    requires n <= WIDTH
    requires forall k | n <= k < WIDTH :: !a[k]
    ensures a == Low(n) <==> forall k | 0 <= k < n :: a[k]
  {
    if forall k | 0 <= k < n :: a[k] {
      assert forall k | 0 <= k < WIDTH :: a[k] == Low(n)[k];
    } else {
      var k :| 0 <= k < n && !a[k];
      assert Low(n)[k];
    }
  }

  /** A field is nonzero exactly when some bit is set. */
  lemma NonZero(a: Field)
    ensures a != Zero() <==> exists k | 0 <= k < WIDTH :: a[k]
  {
    if forall k | 0 <= k < WIDTH :: !a[k] {
      assert forall k | 0 <= k < WIDTH :: a[k] == Zero()[k];
    }
  }
}
