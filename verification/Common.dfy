/** Names shared by the kernel modules. */
module Common {
  datatype Option<+T> = None | Some(value: T)

  /** Return codes of the IPC and thread calls. */
  datatype Code = EOK | ERROR | ETIMEOUT | EFULL

  /** 2 to the 32: sizes, ticks and addresses are 32 bits wide. */
  const WORD_RANGE: nat := 0x1_0000_0000

  function Max(a: nat, b: nat): nat { if a < b then b else a }

  function Min(a: nat, b: nat): nat { if a < b then a else b }

  /** RT_ALIGN(bytes, 4) on 32-bit operands, in 4-byte words. */
  function AlignWords(bytes: nat): nat {
    ((bytes + 3) % WORD_RANGE) / 4
  }

  /** Rounding up never loses bytes unless the addition wraps. */
  lemma AlignCovers(bytes: nat)
    requires bytes < WORD_RANGE
    ensures 4 * AlignWords(bytes) >= bytes <==> bytes <= WORD_RANGE - 4
    ensures bytes <= WORD_RANGE - 4 ==> 4 * AlignWords(bytes) < bytes + 4
  {
    if bytes <= WORD_RANGE - 4 {
      assert (bytes + 3) % WORD_RANGE == bytes + 3;
    } else {
      assert (bytes + 3) % WORD_RANGE == bytes + 3 - WORD_RANGE;
    }
  }
}
