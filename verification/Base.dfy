/** Definitions shared by every other module. */
module Base {
  datatype Option<+T> = None | Some(value: T)

  /** The elements of `s`, each exactly once. */
  ghost predicate Distinct<T>(s: seq<T>) {
    forall i, j :: 0 <= i < j < |s| ==> s[i] != s[j]
  }

  lemma PrefixSnoc<T>(s: seq<T>, n: nat)
    requires n < |s|
    ensures s[..n + 1] == s[..n] + [s[n]]
  {}

  /** Unsigned 64-bit arithmetic wraps. */
  const Word: nat := 0x1_0000_0000_0000_0000

  function Plus64(a: nat, b: nat): (r: nat) {
    (a + b) % Word
  }

  function Minus64(a: nat, b: nat): (r: nat) {
    (a - b) % Word
  }
}
