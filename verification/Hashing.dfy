/** SHA-256 as far as the scripts rely on it: some fold over bytes, fed in any chunks. */
module Hashing {

  type Bytes = seq<bv8>

  /** States are numbered; `digest` renders the final one. */
  datatype Hasher = Hasher(init: int, absorb: (int, bv8) -> int, digest: int -> string)

  function Absorb(h: Hasher, state: int, data: Bytes): int {
    if data == [] then state else h.absorb(Absorb(h, state, data[..|data| - 1]), data[|data| - 1])
  }

  function Hash(h: Hasher, data: Bytes): string {
    h.digest(Absorb(h, h.init, data))
  }

  /** Feeding two chunks is feeding their concatenation. */
  lemma {:induction false} AbsorbChunks(h: Hasher, state: int, a: Bytes, b: Bytes)
    ensures Absorb(h, state, a + b) == Absorb(h, Absorb(h, state, a), b)
    decreases |b|
  {
    if b == [] {
      assert a + b == a;
    } else {
      var n := |b| - 1;
      assert (a + b)[..|a + b| - 1] == a + b[..n];
      AbsorbChunks(h, state, a, b[..n]);
    }
  }

  /** Two different byte strings of one digest. */
  predicate Collide(h: Hasher, a: Bytes, b: Bytes) {
    a != b && Hash(h, a) == Hash(h, b)
  }

  /** The lower-case hexadecimal digits. */
  lemma HexDigit(c: char)
    ensures c in "0123456789abcdef" <==> '0' <= c <= '9' || 'a' <= c <= 'f'
  {
    var digits := "0123456789abcdef";
    if '0' <= c <= '9' {
      assert digits[c as int - '0' as int] == c;
    } else if 'a' <= c <= 'f' {
      assert digits[10 + c as int - 'a' as int] == c;
    }
  }
}
