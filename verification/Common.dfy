/** What several components share. */
module Common {

  datatype Option<T> = None | Some(value: T)

  const TWO32 := 0x1_0000_0000

  type Byte = x: int | 0 <= x < 256

  /** Little-endian words in a sequence of bytes. */
  function Word16(b: seq<Byte>, at: nat): nat
    requires at + 2 <= |b|
  {
    (b[at] as nat) + 0x100 * (b[at + 1] as nat)
  }

  function Word32(b: seq<Byte>, at: nat): nat
    requires at + 4 <= |b|
  {
    Word16(b, at) + 0x1_0000 * Word16(b, at + 2)
  }

  function Min(a: int, b: int): (m: int)
    ensures m <= a && m <= b && (m == a || m == b)
  {
    if a <= b then a else b
  }

  ghost predicate Distinct(s: seq<int>) {
    forall i, j :: 0 <= i < j < |s| ==> s[i] != s[j]
  }

  /** The sequence without its i-th element. */
  function Without<T>(s: seq<T>, i: int): (r: seq<T>)
    requires 0 <= i < |s|
  {
    s[..i] + s[i + 1..]
  }

  function Reversed(s: seq<nat>): seq<nat> {
    if s == [] then [] else Reversed(s[1..]) + [s[0]]
  }

  lemma {:induction false} ReversedMore(s: seq<nat>, x: nat)
    ensures Reversed(s + [x]) == [x] + Reversed(s)
  {
    if s != [] {
      assert (s + [x])[1..] == s[1..] + [x];
      ReversedMore(s[1..], x);
    }
  }

  /** What comes k-th from the end comes k-th. */
  lemma {:induction false} FromTheEnd(s: seq<nat>, k: nat)
    requires k < |s|
    ensures |Reversed(s)| == |s| && Reversed(s)[k] == s[|s| - 1 - k]
    decreases k
  {
    var n := |s| - 1;
    assert s == s[..n] + [s[n]];
    ReversedMore(s[..n], s[n]);
    ReversedLength(s[..n]);
    if k > 0 {
      FromTheEnd(s[..n], k - 1);
    }
  }

  lemma {:induction false} ReversedLength(s: seq<nat>)
    ensures |Reversed(s)| == |s|
  {
    if s != [] {
      ReversedLength(s[1..]);
    }
  }
}
