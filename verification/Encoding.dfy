/** Bytes, fixed-width integers, 32-byte hashes and the little-endian layout that headers,
    transactions and storage keys share.

    Blake2b-256 is a parameter: a `HashFn` is any total function from byte strings to 32 bytes,
    and every theorem quantifies over it.  No injectivity is ever assumed.  A statement that would
    need it says "... or `HasCollision(H, S)`", where `S` is the finite set of byte strings that
    the objects at hand feed to the hash, so a failing case can be searched for a colliding pair. */
module Encoding {

  type Byte = x: int | 0 <= x < 256
  type Bytes = seq<Byte>
  type U32 = x: int | 0 <= x < 0x1_0000_0000
  type U64 = x: int | 0 <= x < 0x1_0000_0000_0000_0000

  type Hash = h: Bytes | |h| == 32 witness seq(32, _ => 0)
  type HashFn = Bytes -> Hash
  type PublicKey = Hash

  /** Thirty-two zero bytes, the hash that stands for "no previous block". */
  const ZERO: Hash := Zeros(32)

  function Zeros(n: nat): (r: Bytes)
    ensures |r| == n
  {
    seq<Byte>(n, _ => 0)
  }

  datatype Option<+T> = None | Some(value: T)

  datatype Result<+T> = Ok(value: T) | Err(error: VotingError)

  datatype VotingError =
    | InvalidBlockHash(calculated: Hash, stored: Hash)
    | InvalidBlock(reason: string)
    | InvalidTransaction(reason: string)
    | BlockHeightMismatch(expectedHeight: nat, actualHeight: nat)
    | InvalidPreviousHash(expected: Hash, actual: Hash)
    | DuplicateTransaction(id: Hash)
    | GenesisError(reason: string)
    | BlockNotFound(what: string)
    | InvalidInput(reason: string)
    | DeserializationError(what: string)
    | InvalidValidator(reason: string)
    | CryptoError(reason: string)
    | InsufficientValidators

  /** Two different members of `S` with the same hash. */
  predicate HasCollision(H: HashFn, S: set<Bytes>) {
    exists x, y :: x in S && y in S && x != y && H(x) == H(y)
  }

  lemma {:induction false} CollisionMonotone(H: HashFn, S: set<Bytes>, T: set<Bytes>)
    requires S <= T
    ensures HasCollision(H, S) ==> HasCollision(H, T)
  {
    if HasCollision(H, S) {
      var x, y :| x in S && y in S && x != y && H(x) == H(y);
      assert x in T && y in T;
    }
  }

  lemma {:induction false} MapMinusTwice<K, V>(m: map<K, V>, a: set<K>, b: set<K>)
    ensures (m - a) - b == m - (a + b)
  {
  }

  /** Two maps that agree on the kept keys differ by the removed ones. */
  lemma {:induction false} MapMinusKeys<K, V>(m: map<K, V>, rest: map<K, V>, kept: set<K>, removed: set<K>)
    requires m.Keys == kept + removed && rest.Keys == kept && kept !! removed
    requires forall k | k in kept :: k in m && k in rest && rest[k] == m[k]
    ensures rest == m - removed
  {
  }

  /** Slices of a list with and without its last element. */
  lemma {:induction false} SliceWithoutLast<T>(s: seq<T>, k: nat)
    requires k < |s|
    ensures s[..|s| - 1][..k] == s[..k] && s[..|s| - 1][k..] + [s[|s| - 1]] == s[k..]
  {
  }

  lemma {:induction false} Reassociate<T>(a: seq<T>, x: T, b: seq<T>)
    ensures a + ([x] + b) == (a + [x]) + b
  {
  }

  lemma {:induction false} ConcatLast<T>(a: seq<T>, b: seq<T>)
    requires b != []
    ensures a + b == (a + b[..|b| - 1]) + [b[|b| - 1]]
  {
  }

  ghost predicate Distinct<T>(s: seq<T>) { forall i, j | 0 <= i < j < |s| :: s[i] != s[j] }

  /** A list has at most as many distinct members as positions, and as many only without repeats. */
  lemma {:induction false} DistinctCount<T>(s: seq<T>)
    ensures |set x | x in s| <= |s|
    ensures |set x | x in s| == |s| <==> Distinct(s)
  {
    if s != [] {
      var n := |s| - 1;
      DistinctCount(s[..n]);
      assert s == s[..n] + [s[n]];
      assert (set x | x in s) == (set x | x in s[..n]) + {s[n]};
      assert forall i | 0 <= i < n :: s[..n][i] == s[i];
      if s[n] in s[..n] {
        var i :| 0 <= i < n && s[..n][i] == s[n];
        assert s[i] == s[n];
      }
    }
  }

  /** `to_le_bytes` of an integer of `width` bytes. */
  function LittleEndian(n: nat, width: nat): (r: Bytes)
    ensures |r| == width
  {
    if width == 0 then [] else [n % 256] + LittleEndian(n / 256, width - 1)
  }

  function FromLittleEndian(bytes: Bytes): nat {
    if bytes == [] then 0 else bytes[0] + 256 * FromLittleEndian(bytes[1..])
  }

  function Pow256(width: nat): nat {
    if width == 0 then 1 else 256 * Pow256(width - 1)
  }

  lemma {:induction false} LittleEndianRoundTrip(n: nat, width: nat)
    requires n < Pow256(width)
    ensures FromLittleEndian(LittleEndian(n, width)) == n
  {
    if width > 0 {
      LittleEndianRoundTrip(n / 256, width - 1);
      assert LittleEndian(n, width)[1..] == LittleEndian(n / 256, width - 1);
    }
  }

  /** The lowest byte comes first. */
  lemma {:induction false} LowestFirst(low: Byte, rest: nat, width: nat)
    ensures LittleEndian(low + 256 * rest, width + 1) == [low] + LittleEndian(rest, width)
  {
    assert (low + 256 * rest) % 256 == low && (low + 256 * rest) / 256 == rest;
  }

  lemma {:induction false} FourBytes(a: Byte, b: Byte, c: Byte, d: Byte)
    ensures LittleEndian(a + 0x100 * b + 0x1_0000 * c + 0x100_0000 * d, 4) == [a, b, c, d]
  {
    LowestFirst(d, 0, 0);
    LowestFirst(c, d, 1);
    LowestFirst(b, c + 256 * d, 2);
    LowestFirst(a, b + 256 * (c + 256 * d), 3);
  }

  lemma {:induction false} Pow256Values()
    ensures Pow256(4) == 0x1_0000_0000
    ensures Pow256(8) == 0x1_0000_0000_0000_0000
  {
    assert Pow256(2) == 0x1_0000;
    assert Pow256(4) == 256 * (256 * Pow256(2));
    assert Pow256(6) == 256 * (256 * Pow256(4));
    assert Pow256(8) == 256 * (256 * Pow256(6));
  }

  /** The eight-byte form of a `u64` determines it. */
  lemma {:induction false} LittleEndian8Injective(a: U64, b: U64)
    requires LittleEndian(a, 8) == LittleEndian(b, 8)
    ensures a == b
  {
    Pow256Values();
    LittleEndianRoundTrip(a, 8);
    LittleEndianRoundTrip(b, 8);
  }

  /** The four-byte form of a `u32` determines it. */
  lemma {:induction false} LittleEndian4Injective(a: U32, b: U32)
    requires LittleEndian(a, 4) == LittleEndian(b, 4)
    ensures a == b
  {
    Pow256Values();
    LittleEndianRoundTrip(a, 4);
    LittleEndianRoundTrip(b, 4);
  }

  /** Concatenation is injective once the first parts have equal length. */
  lemma {:induction false} ConcatInjective(a: Bytes, b: Bytes, c: Bytes, d: Bytes)
    requires |a| == |c| && a + b == c + d
    ensures a == c && b == d
  {
    assert a == (a + b)[..|a|] && b == (a + b)[|a|..];
    assert c == (c + d)[..|c|] && d == (c + d)[|c|..];
  }
}
