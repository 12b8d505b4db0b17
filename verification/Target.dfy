/** Constants of the 32-bit ARM system target. */
module Target {
  const TARGET_PAGE_SIZE: nat := 1024
  /** The page size and the mask of a page's address as 64-bit words. */
  const PAGE_SIZE: bv64 := 0x400
  const PAGE_MASK: bv64 := !(PAGE_SIZE - 1)
  /** One past the largest 64-bit guest physical address. */
  const ADDR_SPACE: nat := 0x1_0000_0000_0000_0000
}
