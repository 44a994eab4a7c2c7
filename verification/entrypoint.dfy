/**
  The child's entry point (`get_child_entrypoint`): the arguments left
  after option parsing, from index `optind` to the end of the argument
  vector, copied into a fresh array of string pointers.
 */
module Entrypoint {

  /** Bytes in a pointer on the LP64 targets of the launcher. */
  const PTR_SIZE: nat := 8

  /** The allocation as written: `malloc(size - optind)`, a count of bytes rather than of pointers. */
  function AllocAsWritten(size: nat, optind: nat): int
    requires optind <= size
  {
    size - optind
  }

  /** Bytes the copy loop stores: one pointer for each argument from `optind` on. */
  function BytesStored(size: nat, optind: nat): nat
    requires optind <= size
  {
    PTR_SIZE * (size - optind)
  }

  /**
    Finding: whenever an entry point is given, the loop stores more bytes
    than the source allocates; `prog -a sh` allocates one byte and stores
    eight.
   */
  lemma AllocTooSmall(size: nat, optind: nat)
    requires optind < size
    ensures AllocAsWritten(size, optind) < BytesStored(size, optind)
    ensures AllocAsWritten(3, 2) == 1 && BytesStored(3, 2) == 8
  {
  }

  /**
    `get_child_entrypoint` with the allocation sized in pointers: the entry
    point is exactly the arguments after the options, in order, and the
    array allocated holds all of them.
   */
  method ChildEntrypoint(args: seq<string>, optind: nat) returns (entry: seq<string>, allocBytes: nat)
    requires optind <= |args|
    ensures |entry| == |args| - optind
    ensures forall i | 0 <= i < |entry| :: entry[i] == args[optind + i]
    ensures allocBytes == BytesStored(|args|, optind)
  {
    allocBytes := PTR_SIZE * (|args| - optind);
    entry := [];
    var index := optind;
    while index < |args|
      invariant optind <= index <= |args|
      invariant |entry| == index - optind
      invariant forall i | 0 <= i < |entry| :: entry[i] == args[optind + i]
    {
      entry := entry + [args[index]];
      index := index + 1;
    }
  }
}
