/** The answers of kernel calls (kern_return_t). */
module KernReturn {
  const KERN_SUCCESS: nat := 0
  const KERN_NO_SPACE: nat := 3
  const KERN_INVALID_ARGUMENT: nat := 4
  const KERN_FAILURE: nat := 5
}
