/** Where things are in a module's memory: the fixed words below the heap, and the sizes of what goes on it. */
module Layout {
  import opened Ints

  const BUMP: u32 := 0
  const HANDLERS: u32 := 8
  const FAILURE_CODE: u32 := 16
  const FAILURE_MESSAGE: u32 := 24
  const FRAME_BUMP: u32 := 32
  const FRAME_START: u32 := 40
  const FRAME_BYTES: u32 := 8192
  const HEAP_START: u32 := FRAME_START + FRAME_BYTES
  const WORD: u32 := 8
  const PAGE: u32 := 65536

  function FrameSize(operations: nat): nat { (3 + operations) * WORD }

  function OperationOffset(operation: nat): nat { (3 + operation) * WORD }

  function AggregateSize(tagged: bool, fields: nat): nat { ((if tagged then 1 else 0) + fields) * WORD }

  function FieldOffset(tagged: bool, field: nat): nat { ((if tagged then 1 else 0) + field) * WORD }

  function ListSize(elements: nat): nat { WORD + elements * WORD }

  function ElementOffset(index: nat): nat { WORD + index * WORD }

  function StringSize(bytes: nat): nat { 2 * WORD + (bytes + 7) / 8 * WORD }
}
