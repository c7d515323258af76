// Sizes and page numbers that several parts of the kernel share.
module Limits {
  const TERM_MAX := 3
  const KB_BUF_SIZE := 128
  const VMEM_MAP := 0xB8
}
