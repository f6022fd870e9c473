/** Network byte order, as `htonl` and its users write it. */
module BigEndian {
  import opened Basics

  type Word = n: int | 0 <= n < 0x1_0000_0000

  type Bytes4 = s: Bytes | |s| == 4 witness [0, 0, 0, 0]

  function Be32(n: Word): Bytes4 {
    var q1 := n / 0x100;
    var q2 := q1 / 0x100;
    [q2 / 0x100, q2 % 0x100, q1 % 0x100, n % 0x100]
  }

  function FromBe32(s: Bytes4): Word {
    ((s[0] as int * 0x100 + s[1] as int) * 0x100 + s[2] as int) * 0x100 + s[3] as int
  }

  /** Reading and writing a word are inverse, in both directions. */
  lemma Be32RoundTrip(n: Word)
    ensures FromBe32(Be32(n)) == n
  {
    var q1 := n / 0x100;
    var q2 := q1 / 0x100;
    assert n == q1 * 0x100 + n % 0x100;
    assert q1 == q2 * 0x100 + q1 % 0x100;
    assert q2 == q2 / 0x100 * 0x100 + q2 % 0x100;
  }

  lemma FromBe32RoundTrip(s: Bytes4)
    ensures Be32(FromBe32(s)) == s
  {
    var q2 := s[0] as int * 0x100 + s[1] as int;
    var q1 := q2 * 0x100 + s[2] as int;
    assert FromBe32(s) == q1 * 0x100 + s[3] as int;
    assert FromBe32(s) / 0x100 == q1 && q1 / 0x100 == q2;
  }
}
