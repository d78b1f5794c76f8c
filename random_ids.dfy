/**
 Identifier generation. The source draws from the process-wide pseudo-random
 generator, seeded once from the clock; here that generator is an object whose
 stream of raw values is given from outside and which counts how many values
 have been drawn. Nothing is assumed about the stream, so every property below
 holds whatever the seed.
 */
module RandomIds {

  /** Length of a generated identifier. */
  const IDLENGTH: nat := 24

  /** The 36 symbols an identifier is drawn from. */
  const CharList: string := "abcdefghijklmnopqrstuvwxyz0123456789"

  /** The symbols of the alphabet: a lower-case letter or a digit. */
  predicate IsIdChar(c: char)
  {
    'a' <= c <= 'z' || '0' <= c <= '9'
  }

  /** The alphabet has 36 symbols, each a lower-case letter or a digit. */
  lemma CharListIsAlphabet()
    ensures |CharList| == 36
    ensures forall k :: 0 <= k < |CharList| ==> IsIdChar(CharList[k])
  {
  }

  /** The process-wide pseudo-random generator: `stream(k)` is the raw value
      behind the k-th draw, `drawn` the number of draws made so far. */
  class Rng {
    const stream: nat -> nat
    var drawn: nat

    constructor (stream: nat -> nat)
      ensures this.stream == stream && drawn == 0
    {
      this.stream := stream;
      drawn := 0;
    }

    /** A value in [0, n) taken from the next raw value of the stream. As in
        the source, n must be positive. */
    method Intn(n: nat) returns (r: nat)
      requires n > 0
      modifies this
      ensures r == stream(old(drawn)) % n
      ensures r < n
      ensures drawn == old(drawn) + 1
    {
      r := stream(drawn) % n;
      drawn := drawn + 1;
    }
  }

  /** The identifier `id` is what the draws from index `from` on produce: its
      i-th symbol comes from the raw value of draw from + i, reduced modulo the
      alphabet's size. */
  predicate DrawnFrom(id: string, stream: nat -> nat, from: nat)
  {
    forall i :: 0 <= i < |id| ==> id[i] == CharList[stream(from + i) % |CharList|]
  }

  /** The identifier is the one the i-th call `RandId(IDLENGTH)` after draw
      `start` returns. */
  predicate IsNthId(id: string, stream: nat -> nat, start: nat, i: nat)
  {
    |id| == IDLENGTH && DrawnFrom(id, stream, start + IDLENGTH * i)
  }

  /** The shape every generated identifier has: 24 symbols of the alphabet. */
  predicate IsRandId(id: string)
  {
    |id| == IDLENGTH && forall i :: 0 <= i < |id| ==> IsIdChar(id[i])
  }

  /** Whatever the stream, drawn symbols are letters or digits. */
  lemma {:induction false} DrawnFromAlphabet(id: string, stream: nat -> nat, from: nat)
    requires DrawnFrom(id, stream, from)
    ensures forall i :: 0 <= i < |id| ==> IsIdChar(id[i])
  {
    CharListIsAlphabet();
  }

  /** The draws determine the identifier, and it has the generated shape. */
  lemma NthIdDetermined(id1: string, id2: string, stream: nat -> nat, start: nat, i: nat)
    requires IsNthId(id1, stream, start, i) && IsNthId(id2, stream, start, i)
    ensures id1 == id2
    ensures IsRandId(id1)
  {
    CharListIsAlphabet();
  }

  /** Generates an identifier of length n, one draw per character, filling a
      buffer index by index. */
  method RandId(rng: Rng, n: nat) returns (id: string)
    modifies rng
    ensures |id| == n && DrawnFrom(id, rng.stream, old(rng.drawn))
    ensures rng.drawn == old(rng.drawn) + n
  {
    var buffer := new char[n];
    var i := 0;
    while i < n
      invariant 0 <= i <= n
      invariant rng.drawn == old(rng.drawn) + i
      invariant forall j :: 0 <= j < i ==>
        buffer[j] == CharList[rng.stream(old(rng.drawn) + j) % |CharList|]
    {
      var k := rng.Intn(|CharList|);
      buffer[i] := CharList[k];
      i := i + 1;
    }
    id := buffer[..];
  }
}
