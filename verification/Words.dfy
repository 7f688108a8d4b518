/** Word-addressed memory: what a 32-bit aligned load or store sees at each address. */
module Words {

  const NULL := 0

  type Words = int -> int

  /** The word at a. */
  function Word(m: Words, a: int): int { m(a) }

  /** The n bytes from a on are zero. */
  ghost predicate Zeroed(m: Words, a: int, n: int) {
    forall b | a <= b < a + n :: m(b) == 0
  }

  /** m and n agree outside the len bytes from a on. */
  ghost predicate SameBut(m: Words, n: Words, a: int, len: int) {
    forall b | !(a <= b < a + len) :: n(b) == m(b)
  }

  function Store(m: Words, a: int, v: int): Words {
    b => if b == a then v else m(b)
  }

  /** memset(a, 0, n) on whole words. */
  function Clear(m: Words, a: int, n: int): Words {
    b => if a <= b < a + n then 0 else m(b)
  }

  predicate Aligned(a: int) { a % 4 == 0 }

  /** The memory the kernel reads and writes in place. */
  class Ram {
    var w: Words

    constructor (init: Words)
      ensures w == init
    {
      w := init;
    }

    method Get(a: int) returns (v: int)
      requires Aligned(a)
      ensures v == Word(w, a)
    {
      v := w(a);
    }

    method Put(a: int, v: int)
      requires Aligned(a)
      modifies this
      ensures w == Store(old(w), a, v)
    {
      w := Store(w, a, v);
    }

    method Zero(a: int, n: nat)
      requires Aligned(a) && Aligned(n)
      modifies this
      ensures w == Clear(old(w), a, n)
    {
      w := Clear(w, a, n);
    }

    /** The n bytes from a on get contents this model says nothing about: new frames, strings. */
    method Overwrite(a: int, n: nat)
      modifies this
      ensures SameBut(old(w), w, a, n)
    {
    }
  }
}
