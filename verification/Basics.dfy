/** Types shared by every part of the model. */
module Basics {
  datatype Option<+T> = None | Some(value: T)

  /** An error return carries the C error code or a description of the exit taken. */
  datatype Result<+T, +E> = Ok(value: T) | Err(error: E)

  const EIO := 5
  const EINVAL := 22

  type Byte = b: int | 0 <= b < 256

  type Bytes = seq<Byte>

  /** Object and transaction ids are unsigned 32-bit integers. */
  type Oid = n: int | 0 <= n < 0x1_0000_0000

  type Int32 = n: int | -0x8000_0000 <= n < 0x8000_0000

  type Int64 = n: int | -0x8000_0000_0000_0000 <= n < 0x8000_0000_0000_0000

  type Lsn = nat

  function Min(a: int, b: int): int {
    if a <= b then a else b
  }

  function Max(a: int, b: int): int {
    if a >= b then a else b
  }

  lemma ConcatAssoc<T>(a: seq<T>, b: seq<T>, c: seq<T>)
    ensures (a + b) + c == a + (b + c)
  {
  }

  lemma ConcatLast<T>(a: seq<T>, b: seq<T>)
    requires |b| > 0
    ensures a + b == (a + b[..|b|-1]) + [b[|b|-1]]
  {
  }

  lemma EmptyConcat<T>(a: seq<T>)
    ensures [] + a == a && a + [] == a
  {
  }

  lemma UpdateSame<K, V>(m: map<K, V>, k: K, v: V)
    requires k in m && m[k] == v
    ensures m[k := v] == m
  {
  }

  lemma TakeTake<T>(s: seq<T>, m: nat, n: nat)
    requires m <= n <= |s|
    ensures s[..n][..m] == s[..m]
  {
  }

  lemma TakeLast<T>(s: seq<T>, n: nat)
    requires 0 < n <= |s|
    ensures s[..n] == s[..n-1] + [s[n-1]]
  {
  }

  lemma ConcatTake<T>(a: seq<T>, b: seq<T>)
    ensures (a + b)[..|a|] == a && (a + b)[|a|..] == b
  {
  }

  lemma SplitConcat<T>(a: seq<T>, b: seq<T>, j: nat)
    requires j <= |a|
    ensures a + b == a[..j] + (a[j..] + b)
  {
  }

  lemma DropDrop<T>(s: seq<T>, c: nat, t: nat)
    requires c <= t <= |s|
    ensures s[c..][t-c..] == s[t..]
  {
  }
}
