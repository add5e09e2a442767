/**
  The C library random source (rand(), std::random_shuffle) as a caller-supplied
  stream of numbers. Every draw of the search consumes the head of the stream; an
  exhausted stream keeps answering 0. Seeding with srand(time(NULL)) is not modelled.
 */
module Randomness {

  /** RAND_MAX of the C library (the smallest value the C standard permits). */
  const RandMax: nat := 32767

  class Random {
    var stream: seq<nat>

    constructor (s: seq<nat>)
      ensures stream == s
    {
      stream := s;
    }

    /** rand(): the next number of the stream, in 0..RandMax. */
    method Next() returns (x: nat)
      modifies this
      ensures x <= RandMax
      ensures old(stream) == [] ==> x == 0 && stream == []
      ensures old(stream) != [] ==> x == old(stream)[0] % (RandMax + 1) && stream == old(stream)[1..]
    {
      if stream == [] {
        x := 0;
      } else {
        x := stream[0] % (RandMax + 1);
        stream := stream[1..];
      }
    }
  }

  /**
    std::random_shuffle over a vector, as the classic implementation does it:
    for i = 1 .. n-1, swap a[i] with a[rand() % (i + 1)]. The result is a
    permutation of the input whatever the stream holds.
   */
  method RandomShuffle(s: seq<nat>, rng: Random) returns (r: seq<nat>)
    modifies rng
    ensures |r| == |s|
    ensures multiset(r) == multiset(s)
  {
    r := s;
    var i := 1;
    while i < |r|
      invariant i >= 1
      invariant |r| == |s|
      invariant multiset(r) == multiset(s)
    {
      var x := rng.Next();
      var j := x % (i + 1);
      r := r[i := r[j]][j := r[i]];
      i := i + 1;
    }
  }
}
