/** The memory of a shell: strings allocated by `malloc` and given back by `free`. */
module Memory {

  /** `after` is `before` and the numbers from `lo` up to `hi`. */
  ghost predicate Adds(before: set<int>, lo: int, hi: int, after: set<int>) {
    forall n :: n in after <==> n in before || lo <= n < hi
  }

  /** The heap with the strings `args` in the blocks from `p` on. */
  function Extended(heap: map<int, string>, p: int, args: seq<string>): map<int, string> {
    if args == [] then heap
    else
      var n := |args| - 1;
      Extended(heap, p, args[..n])[p + n := args[n]]
  }

  /** The strings that pointers point to. */
  function Strings(heap: map<int, string>, ptrs: seq<int>): (args: seq<string>)
    requires forall i | 0 <= i < |ptrs| :: ptrs[i] in heap
    ensures |args| == |ptrs| && forall i | 0 <= i < |args| :: args[i] == heap[ptrs[i]]
  {
    seq(|ptrs|, i requires 0 <= i < |ptrs| => heap[ptrs[i]])
  }

  lemma {:induction false} ExtendedHolds(heap: map<int, string>, p: int, args: seq<string>)
    ensures var h := Extended(heap, p, args);
      && (forall q :: q in h <==> q in heap || p <= q < p + |args|)
      && (forall q | q in h :: h[q] == if p <= q < p + |args| then args[q - p] else heap[q])
  {
    if args != [] {
      ExtendedHolds(heap, p, args[..|args| - 1]);
    }
  }

  lemma ExtendedMore(heap: map<int, string>, p: int, args: seq<string>, arg: string)
    ensures Extended(heap, p, args + [arg]) == Extended(heap, p, args)[p + |args| := arg]
  {
    assert (args + [arg])[..|args|] == args;
  }

  lemma ExtendedLess(heap: map<int, string>, p: int, args: seq<string>, n: nat)
    requires n < |args| && p + n !in heap
    ensures p + n in Extended(heap, p, args[..n + 1])
    ensures Extended(heap, p, args[..n + 1]) - {p + n} == Extended(heap, p, args[..n])
  {
    ExtendedHolds(heap, p, args[..n]);
    assert args[..n + 1][..n] == args[..n];
  }

  /** The arguments of a stage are the strings in its blocks. */
  lemma StringsAre(heap: map<int, string>, p: int, args: seq<string>, ptrs: seq<int>)
    requires |ptrs| == |args| && forall i | 0 <= i < |ptrs| :: ptrs[i] == p + i
    ensures forall i | 0 <= i < |ptrs| :: ptrs[i] in Extended(heap, p, args)
    ensures Strings(Extended(heap, p, args), ptrs) == args
  {
    ExtendedHolds(heap, p, args);
  }

  class Heap {
    var blocks: map<int, string>
    var next: int              // no pointer is handed out twice
    ghost var freed: set<int>  // the blocks given back

    ghost predicate Valid()
      reads this
    {
      && 1 <= next
      && (forall p | p in blocks :: p < next && p !in freed)
      && (forall p | p in freed :: p < next)
    }

    constructor ()
      ensures Valid() && blocks == map[] && freed == {}
    {
      blocks, next, freed := map[], 1, {};
    }

    /** `malloc` and the `strcpy` into the block. */
    method Allocate(s: string) returns (p: int)
      requires Valid()
      modifies this
      ensures Valid() && p == old(next) && next == p + 1
      ensures blocks == old(blocks)[p := s] && freed == old(freed)
    {
      p := next;
      blocks := blocks[p := s];
      next := next + 1;
    }

    /** `free`, of a block that is allocated and was not freed before. */
    method Free(p: int)
      requires Valid() && p in blocks && p !in freed
      modifies this
      ensures Valid() && next == old(next)
      ensures blocks == old(blocks) - {p} && freed == old(freed) + {p}
    {
      blocks := blocks - {p};
      freed := freed + {p};
    }

    /** The loop at the end of `command` that frees a stage's arguments, last first. */
    method FreeArgs(argc: nat, argv: array<int>, ghost base: map<int, string>, ghost p: int, ghost args: seq<string>)
      requires Valid() && argc == |args| <= argv.Length
      requires (forall i | 0 <= i < argc :: argv[i] == p + i) && (forall q | q in base :: q < p)
      requires blocks == Extended(base, p, args)
      modifies this
      ensures Valid() && blocks == base && next == old(next)
      ensures Adds(old(freed), p, p + argc, freed)
    {
      var i := argc;
      assert args[..argc] == args;
      while i > 0
        invariant 0 <= i <= argc && Valid() && next == old(next)
        invariant blocks == Extended(base, p, args[..i])
        invariant Adds(old(freed), p + i, p + argc, freed)
      {
        i := i - 1;
        ExtendedLess(base, p, args, i);
        Free(argv[i]);
      }
    }
  }
}
