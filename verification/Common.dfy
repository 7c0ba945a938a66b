/** Constants and small datatypes shared by every part of the model. */
module Common {

  datatype Option<+T> = None | Some(value: T)

  /** One physical page frame (`PMM_PAGE_SIZE`). */
  const PAGE_SIZE: nat := 4096

  /** Number of frames the kernel can reach through its direct map
      (`VMM_DIRECT_MAP_LIMIT`, 16 MiB). */
  const DIRECT_PAGES: nat := 4096

  /** Entries of one page directory or page table. */
  const ENTRIES: nat := 1024

  /** First page-directory index of the kernel half (0xC0000000). */
  const KERNEL_PDE: nat := 768

  /** `uint32_t`. */
  type Word32 = n: int | 0 <= n < 0x1_0000_0000

  type Byte = b: int | 0 <= b < 256
}
