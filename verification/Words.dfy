/** Machine words, bytes and the one fact about products that the other modules share. */
module Words {

  const WORD := 0x1_0000_0000_0000_0000
  const UINT32 := 0x1_0000_0000
  const NULL := 0

  type Byte = b: int | 0 <= b < 256

  lemma {:induction false} MulBounds(w: nat, d: int)
    ensures d >= 0 ==> w * d >= 0
    ensures d >= 1 ==> w * d >= w
    ensures d <= -1 ==> w * d <= 0 - w
  {
  }
}
