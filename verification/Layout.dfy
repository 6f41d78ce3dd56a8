/** The layout of the shared region (src/shmem/allocator.h, src/shmem/common.h) on a 64-bit machine.

    Everything in the region is aligned to 8 bytes, so the model counts in words: offset `o` below is byte
    offset `8 * o` of the program, and size `s` is `8 * s` bytes. */
module Layout {

  const WORD_LIMIT := 0x1_0000_0000_0000_0000

  /** One aligned 8-byte cell of the region. */
  type Word = w: nat | w < WORD_LIMIT

  /** `size_t` counts bytes and wraps at 2^64; counted in words it wraps at 2^61. */
  const SIZE_LIMIT := 0x2000_0000_0000_0000

  const NULL_OFFSET: Word := 0xFFFF_FFFF_FFFF_FFFF

  const FREE: Word := 0
  const ALLOCATED: Word := 1

  // Cells of the allocator header.
  const TOTAL_SIZE := 1
  const FREE_SIZE := 2
  const MAX_MESSAGE_SIZE := 3
  const FIRST_FREE := 4
  const REGION_HEADER := 5

  // Block header: size, type, link. Block footer: size, type.
  const BLOCK_HEADER := 3
  const BLOCK_FOOTER := 2
  const BLOCK_TAGS := 5
  const LINK := 2

  /** Below this size a remainder is not split off. */
  const MIN_BLOCK := 13

  /** The smallest block any request produces: the tags and one payload word. */
  const LEAST_BLOCK := 6

  /** `ALIGN` of a byte count, in words. */
  function Align(bytes: nat): nat {
    (bytes + 7) / 8
  }

  /** Words of a block with room for that many bytes between its tags. */
  function BlockWords(bytes: nat): nat {
    Align(bytes) + BLOCK_TAGS
  }

  function Tag(free: bool): Word {
    if free then FREE else ALLOCATED
  }

  /** `size_t` addition and subtraction, in words. */
  function WrappingAdd(a: nat, b: nat): nat {
    if a + b < SIZE_LIMIT then a + b else a + b - SIZE_LIMIT
  }

  function WrappingSub(a: nat, b: nat): nat
    requires b < SIZE_LIMIT
  {
    if b <= a then a - b else a + SIZE_LIMIT - b
  }
}
