/** Source-issued names of address spaces: memory-identity.h. */
module MemoryIdentity {
  /** vmr_mm_binding: the address space a context runs, and which of its bindings that is. */
  datatype Binding = Binding(context: nat, mm: nat, parentMm: nat, epoch: nat)

  predicate ValidBinding(b: Binding) {
    b.context != 0 && b.mm != 0 && b.epoch != 0 && b.parentMm != b.mm
  }
}
