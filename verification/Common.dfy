/** Values that several parts of the model share. */
module Wrappers {
  datatype Option<T> = None | Some(value: T)
}

/** Sizes of pages and machine words, and the user half of an address space. */
module Layout {
  const PAGE_SIZE: nat := 4096
  const TWO64: nat := 0x1_0000_0000_0000_0000
  const VM_USER_START: nat := 0x40_0000
  const VM_USER_END: nat := 0x80_0000_0000
  const VM_MMAP_BASE: nat := 0x40_0000_0000
}
