/** The result of an operation that may call the simulator's panic(), which aborts the process.
    Every panic site of the modelled code is a Fault of its own, so that a contract can say which
    of them are reachable. */
module Outcome {

  datatype Fault =
    | NoFreeBlock           // "No free block left"
    | EmptyFreeList         // erase walks backwards from end() of an empty list: undefined behaviour
    | IndexOutOfRange       // "Index out of range"
    | Corrupted             // "Corrupted"
    | InvalidMapping        // "Invalid mapping table entry"
    | InvalidBlock          // "Invalid block"
    | NoSuchBlock           // "No such block"
    | BlockNotInUse         // "Block is not in use"
    | WriteToNonErased      // "Write to non erased page"
    | NotSequential         // "Write to block should sequential"

  datatype Result<+T> = Ok(value: T) | Panic(fault: Fault) {

    predicate IsFailure() {
      Panic?
    }

    function PropagateFailure<U>(): Result<U>
      requires Panic?
    {
      Panic(fault)
    }

    function Extract(): T
      requires Ok?
    {
      value
    }
  }
}
