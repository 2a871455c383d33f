/** Who has ptable.lock: a process in the code at hand, or some other part of the kernel. */
module Spinlocks {
  datatype Holder = Nobody | By(p: nat) | Other
}
